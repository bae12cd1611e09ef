/** Cutting a rendered message into posts: at line ends where possible, each piece closing the fence it leaves open
    and the next one reopening it. */
module SplitText {
  import opened Options
  import opened Text

  const FENCE := "```"
  const CLOSE := "\n```"

  /** A piece cut inside a fence gets a closing line. */
  function WithClose(body: string, fence: string): string {
    if fence != "" then body + CLOSE else body
  }

  /** A line that opens or closes a fence. */
  predicate IsFenceMark(line: string) {
    FENCE <= LStrip(line)
  }

  /** A line, or a slice of an over-long one; `ends` tells the last slice of a line. */
  datatype Seg = Seg(text: string, ends: bool)

  /** One piece before it is written out: the opener it repeats, what it holds, and whether it closes a fence. */
  datatype Group = Group(opener: string, body: seq<Seg>, closed: bool)

  function Texts(body: seq<Seg>): seq<string> {
    if body == [] then [] else Texts(body[..|body| - 1]) + [body[|body| - 1].text]
  }

  function GroupLines(opener: string, body: seq<Seg>): seq<string> {
    (if opener != "" then [opener] else []) + Texts(body)
  }

  function Render(g: Group): string {
    if g.closed then Join(GroupLines(g.opener, g.body)) + CLOSE else Join(GroupLines(g.opener, g.body))
  }

  function RenderAll(groups: seq<Group>): (pieces: seq<string>)
    ensures |pieces| == |groups|
  {
    if groups == [] then [] else RenderAll(groups[..|groups| - 1]) + [Render(groups[|groups| - 1])]
  }

  function Segs(groups: seq<Group>): seq<Seg> {
    if groups == [] then [] else Segs(groups[..|groups| - 1]) + groups[|groups| - 1].body
  }

  /** The whole lines the segments make up, and the slices of a line not yet ended. */
  function Reassemble(segs: seq<Seg>): (r: (seq<string>, string)) {
    if segs == [] then ([], "")
    else
      var (done, part) := Reassemble(segs[..|segs| - 1]);
      var last := segs[|segs| - 1];
      if last.ends then (done + [part + last.text], "") else (done, part + last.text)
  }

  /** The opener of the fence that is open after `segs`, "" outside of one. */
  function FenceAfter(segs: seq<Seg>): string {
    if segs == [] then ""
    else
      var before := FenceAfter(segs[..|segs| - 1]);
      var last := segs[|segs| - 1];
      if last.ends && IsFenceMark(last.text) then (if before != "" then "" else Strip(last.text)) else before
  }

  /** Every group repeats the fence open where it starts and closes the one open where it ends. */
  ghost predicate WellFenced(groups: seq<Group>) {
    groups != [] ==>
      var before, g := groups[..|groups| - 1], groups[|groups| - 1];
      && WellFenced(before)
      && g.opener == FenceAfter(Segs(before))
      && g.closed == (FenceAfter(Segs(groups)) != "")
      && GroupLines(g.opener, g.body) != []
  }

  // ---- the slicing of one over-long line, as the loop's condition and step ----------------------

  datatype Inner = Inner(line: string, size: nat, fence: string)

  predicate TooLong(limit: int, s: Inner) {
    |s.line| > limit - 17 - |s.fence|
  }

  function Room(limit: int, s: Inner): (room: nat)
    ensures room >= 1
  {
    if limit - 17 - |s.fence| - s.size >= 1 then limit - 17 - |s.fence| - s.size else 1
  }

  function SizeAfterFlush(fence: string): nat {
    if fence != "" then |fence| + 1 else 0
  }

  function InnerStep(limit: int, s: Inner): Inner {
    var room := Room(limit, s);
    if s.size > 0 && room < 200 then s.(size := SizeAfterFlush(s.fence))
    else Inner(if room <= |s.line| then s.line[room..] else "", SizeAfterFlush(s.fence), s.fence)
  }

  function InnerSteps(limit: int, s: Inner, n: nat): Inner
    decreases n
  {
    if n == 0 then s else InnerSteps(limit, InnerStep(limit, s), n - 1)
  }

  lemma {:induction false} NoSteps(limit: int, s: Inner)
    ensures InnerSteps(limit, s, 0) == s
  {
  }

  lemma {:induction false} StepsSnoc(limit: int, s: Inner, n: nat)
    ensures InnerSteps(limit, s, n + 1) == InnerStep(limit, InnerSteps(limit, s, n))
    decreases n
  {
    hide InnerStep;
    if n > 0 {
      StepsSnoc(limit, InnerStep(limit, s), n - 1);
    }
  }

  /** Inside a fence there must be room for a slice behind the repeated opener. */
  predicate Diverges(limit: int, line: string, fence: string) {
    && TooLong(limit, Inner(line, 0, fence))
    && (if fence != "" then limit < 218 + 2 * |fence| else limit < 17)
  }

  ghost predicate NeverLeaves(limit: int, s: Inner) {
    forall n: nat :: TooLong(limit, InnerSteps(limit, s, n))
  }

  lemma {:induction false} StuckFor(limit: int, s: Inner, n: nat)
    requires s.fence != "" ==> s.size >= |s.fence| + 1
    requires Diverges(limit, s.line, s.fence)
    ensures TooLong(limit, InnerSteps(limit, s, n))
    decreases n
  {
    if n > 0 {
      StuckFor(limit, InnerStep(limit, s), n - 1);
    }
  }

  lemma {:induction false} LeavesAfter(limit: int, s: Inner) returns (n: nat)
    requires s.fence != "" ==> s.size >= |s.fence| + 1
    requires !Diverges(limit, s.line, s.fence)
    ensures !TooLong(limit, InnerSteps(limit, s, n))
    decreases |s.line|, s.size
  {
    if TooLong(limit, s) {
      var t := InnerStep(limit, s);
      var m := LeavesAfter(limit, t);
      n := m + 1;
    } else {
      n := 0;
    }
  }

  /** The slicing loop runs for ever exactly when the limit leaves no room behind the opener. */
  lemma {:induction false} SlicingTerminatesIff(limit: int, s: Inner)
    requires s.fence != "" ==> s.size >= |s.fence| + 1
    ensures NeverLeaves(limit, s) <==> Diverges(limit, s.line, s.fence)
  {
    if Diverges(limit, s.line, s.fence) {
      forall n: nat ensures TooLong(limit, InnerSteps(limit, s, n)) {
        StuckFor(limit, s, n);
      }
    } else {
      var n := LeavesAfter(limit, s);
    }
  }

  // ---- the cutting ----------------------------------------------------------------------------

  /** What has been cut so far: the groups written out, the group being filled (its opener and what it holds), all
      segments in order, and the fence open behind them. */
  datatype Work = Work(groups: seq<Group>, opener: string, body: seq<Seg>, segs: seq<Seg>, fence: string)

  ghost predicate Consistent(b: Work) {
    && WellFenced(b.groups)
    && b.segs == Segs(b.groups) + b.body
    && b.opener == FenceAfter(Segs(b.groups))
    && b.fence == FenceAfter(b.segs)
  }

  type Build = b: Work | Consistent(b) ghost witness Work([], "", [], [], "")

  ghost function Put(b: Build, seg: Seg): (b': Build)
    ensures b'.groups == b.groups && b'.opener == b.opener && b'.body == b.body + [seg] && b'.segs == b.segs + [seg]
    ensures b'.fence == if seg.ends && IsFenceMark(seg.text) then (if b.fence != "" then "" else Strip(seg.text)) else b.fence
    ensures Reassemble(b'.segs) == var (done, part) := Reassemble(b.segs);
      if seg.ends then (done + [part + seg.text], "") else (done, part + seg.text)
  {
    assert (b.segs + [seg])[..|b.segs|] == b.segs;
    assert Segs(b.groups) + (b.body + [seg]) == b.segs + [seg];
    Work(b.groups, b.opener, b.body + [seg], b.segs + [seg], FenceAfter(b.segs + [seg]))
  }

  lemma {:induction false} WrittenIsConsistent(b: Build)
    requires GroupLines(b.opener, b.body) != []
    ensures Consistent(Work(b.groups + [Group(b.opener, b.body, b.fence != "")], b.fence, [], b.segs, b.fence))
  {
    var g := Group(b.opener, b.body, b.fence != "");
    var groups := b.groups + [g];
    assert groups[..|b.groups|] == b.groups;
    assert Segs(groups) == b.segs;
    assert b.segs + [] == b.segs;
  }

  /** The group being filled is written out; the next one repeats the opener of the fence left open. */
  ghost function Write(b: Build): (b': Build)
    requires GroupLines(b.opener, b.body) != []
    ensures b' == Work(b.groups + [Group(b.opener, b.body, b.fence != "")], b.fence, [], b.segs, b.fence)
  {
    WrittenIsConsistent(b);
    Work(b.groups + [Group(b.opener, b.body, b.fence != "")], b.fence, [], b.segs, b.fence)
  }

  /** The variables of the loop stand for the work done, and every piece is within the limit. */
  ghost predicate Rep(limit: int, pieces: seq<string>, cur: seq<string>, size: nat, fence: string, b: Build) {
    && pieces == RenderAll(b.groups) && cur == GroupLines(b.opener, b.body) && fence == b.fence
    && (forall i :: 0 <= i < |pieces| ==> |pieces[i]| <= limit)
    && size == Size(cur) <= limit - 15
    && (fence != "" ==> size >= |fence| + 1)
  }

  lemma {:induction false} PutRep(
    limit: int, pieces: seq<string>, cur: seq<string>, size: nat, fence: string, b: Build, seg: Seg)
    requires Rep(limit, pieces, cur, size, fence, b) && size + |seg.text| + 1 <= limit - 15
    ensures Rep(limit, pieces, cur + [seg.text], size + |seg.text| + 1, Put(b, seg).fence, Put(b, seg))
  {
    hide Consistent, RenderAll, Segs, FenceAfter, Reassemble, Strip;
    StripShortens(seg.text);
    assert (cur + [seg.text])[..|cur|] == cur;
    assert (b.body + [seg])[..|b.body|] == b.body;
  }

  lemma {:induction false} RenderAllSnoc(groups: seq<Group>, g: Group)
    ensures RenderAll(groups + [g]) == RenderAll(groups) + [Render(g)]
  {
    assert (groups + [g])[..|groups|] == groups;
  }

  lemma {:induction false} WriteRep(
    limit: int, pieces: seq<string>, cur: seq<string>, size: nat, fence: string, b: Build)
    requires Rep(limit, pieces, cur, size, fence, b) && cur != []
    ensures Rep(limit, pieces + [WithClose(Join(cur), fence)], if fence != "" then [fence] else [], SizeAfterFlush(fence),
                fence, Write(b))
  {
    hide Consistent, RenderAll, Segs, FenceAfter, Reassemble, Join;
    JoinSize(cur);
    assert [fence][..0] == [];
    RenderAllSnoc(b.groups, Group(b.opener, b.body, b.fence != ""));
    assert [fence] + Texts([]) == [fence] && [] + Texts([]) == [];
  }

  lemma {:induction false} RepMeans(
    limit: int, pieces: seq<string>, cur: seq<string>, size: nat, fence: string, b: Build)
    requires Rep(limit, pieces, cur, size, fence, b)
    ensures cur == GroupLines(b.opener, b.body) && size == Size(cur) && fence == b.fence && (size > 0 ==> cur != [])
  {
    hide Consistent, GroupLines, RenderAll;
  }

  /** Closes the piece being filled and starts the next one with the opener of the fence left open. */
  method Flush(limit: int, pieces: seq<string>, cur: seq<string>, fence: string, ghost size: nat, ghost b: Build)
    returns (pieces': seq<string>, cur': seq<string>, size': nat)
    requires Rep(limit, pieces, cur, size, fence, b) && cur != []
    ensures Rep(limit, pieces', cur', size', fence, Write(b)) && size' == SizeAfterFlush(fence)
    ensures pieces' == pieces + [WithClose(Join(cur), fence)] && cur' == if fence != "" then [fence] else []
  {
    WriteRep(limit, pieces, cur, size, fence, b);
    var body := Join(cur);
    if fence != "" {
      body := body + CLOSE;
    }
    pieces' := pieces + [body];
    cur' := if fence != "" then [fence] else [];
    size' := if fence != "" then |fence| + 1 else 0;
  }

  // ---- where pieces are broken ------------------------------------------------------------------

  function SizeOf(g: Group): nat {
    Size(GroupLines(g.opener, g.body))
  }

  function CloseSize(fence: string): nat {
    if fence != "" then 4 else 0
  }

  /** The piece ends with a slice of an over-long line, and with it the room is used up. */
  predicate FullCut(limit: int, g: Group, fence: string) {
    g.body != [] && !g.body[|g.body| - 1].ends && SizeOf(g) >= limit - 16 - |fence|
  }

  /** Less than 200 characters of room are left in the piece. */
  predicate Roomless(limit: int, g: Group, fence: string) {
    SizeOf(g) + 200 > limit - 17 - |fence|
  }

  /** The break between a piece and what comes next is forced: the next line does not fit any more, or the piece was
      filled with a slice of an over-long line - or what comes next is such a slice, and there is hardly room. */
  predicate Breaks(limit: int, g: Group, fence: string, next: Seg) {
    if next.ends then SizeOf(g) + |next.text| + 1 > limit - 16 - CloseSize(fence) || FullCut(limit, g, fence)
    else Roomless(limit, g, fence)
  }

  /** How many segments the first pieces hold, up to piece `k`. */
  function UpTo(groups: seq<Group>, k: nat): nat
    requires k < |groups|
  {
    |Segs(groups[..k + 1])|
  }

  /** Every break is forced by the segment that comes after it. */
  ghost predicate Tight(limit: int, b: Work) {
    forall k :: 0 <= k < |b.groups| && UpTo(b.groups, k) < |b.segs| ==>
      Breaks(limit, b.groups[k], FenceAfter(b.segs[..UpTo(b.groups, k)]), b.segs[UpTo(b.groups, k)])
  }

  /** So is every break behind which nothing has come yet, if `next` comes. */
  ghost predicate Due(limit: int, b: Work, next: Seg) {
    forall k :: 0 <= k < |b.groups| && UpTo(b.groups, k) == |b.segs| ==> Breaks(limit, b.groups[k], b.fence, next)
  }

  /** Such a break is behind a slice - or in front of one, when a slice comes. */
  ghost predicate Pending(limit: int, b: Work, slice: bool) {
    forall k :: 0 <= k < |b.groups| && UpTo(b.groups, k) == |b.segs| ==>
      FullCut(limit, b.groups[k], b.fence) || (slice && Roomless(limit, b.groups[k], b.fence))
  }

  lemma {:induction false} PendingIsDue(limit: int, b: Work, slice: bool, next: Seg)
    requires Pending(limit, b, slice) && (slice ==> !next.ends)
    ensures Due(limit, b, next) && Pending(limit, b, true)
  {
    hide UpTo, SizeOf;
  }

  lemma {:induction false} SegsGrow(groups: seq<Group>, k: nat)
    requires k <= |groups|
    ensures |Segs(groups[..k])| <= |Segs(groups)|
    decreases |groups|
  {
    if k == |groups| {
      assert groups[..k] == groups;
    } else {
      SegsGrow(groups[..|groups| - 1], k);
      assert groups[..|groups| - 1][..k] == groups[..k];
    }
  }

  lemma {:induction false} UpToInside(b: Build, k: nat)
    requires k < |b.groups|
    ensures UpTo(b.groups, k) <= |Segs(b.groups)| && |b.segs| == |Segs(b.groups)| + |b.body|
  {
    SegsGrow(b.groups, k + 1);
  }

  lemma {:induction false} PutTight(limit: int, b: Build, seg: Seg)
    requires Tight(limit, b) && Due(limit, b, seg)
    ensures Tight(limit, Put(b, seg)) && Pending(limit, Put(b, seg), false)
  {
    hide Consistent, FenceAfter, Reassemble, Breaks, Segs, FullCut, Roomless;
    var b' := Put(b, seg);
    FenceOf(b);
    forall k | 0 <= k < |b.groups|
      ensures UpTo(b.groups, k) <= |b.segs|
      ensures Breaks(limit, b.groups[k], FenceAfter(b'.segs[..UpTo(b.groups, k)]), b'.segs[UpTo(b.groups, k)])
    {
      UpToInside(b, k);
      var n := UpTo(b.groups, k);
      if n < |b.segs| {
        assert b'.segs[..n] == b.segs[..n] && b'.segs[n] == b.segs[n];
      } else {
        assert b'.segs[..n] == b.segs && b'.segs[n] == seg;
      }
    }
  }

  /** The piece that `Write` adds. */
  ghost function Filled(b: Build): Group {
    Group(b.opener, b.body, b.fence != "")
  }

  lemma {:induction false} WrittenUpTo(b: Build, k: nat)
    requires GroupLines(b.opener, b.body) != [] && k <= |b.groups|
    ensures var b' := Write(b);
      && b'.segs == b.segs && b'.fence == b.fence && b'.groups == b.groups + [Filled(b)]
      && (k < |b.groups| ==> b'.groups[k] == b.groups[k] && UpTo(b'.groups, k) == UpTo(b.groups, k))
      && (k < |b.groups| && UpTo(b.groups, k) == |b.segs| ==> b.body == [])
      && (k == |b.groups| ==> UpTo(b'.groups, k) == |b.segs|)
  {
    hide FenceAfter, Reassemble, WellFenced;
    var b' := Write(b);
    if k < |b.groups| {
      assert b'.groups[..k + 1] == b.groups[..k + 1];
      UpToInside(b, k);
    } else {
      assert b'.groups[..k + 1] == b'.groups;
    }
  }

  lemma {:induction false} WriteTight(limit: int, b: Build)
    requires Tight(limit, b) && GroupLines(b.opener, b.body) != []
    ensures Tight(limit, Write(b))
  {
    hide Consistent, FenceAfter, Reassemble, Breaks, UpTo, GroupLines, Write;
    forall k | 0 <= k <= |b.groups|
      ensures UpTo(Write(b).groups, k) < |b.segs| ==>
        k < |b.groups| && UpTo(Write(b).groups, k) == UpTo(b.groups, k) && Write(b).groups[k] == b.groups[k]
    {
      WrittenUpTo(b, k);
    }
    WrittenUpTo(b, |b.groups|);
  }

  lemma {:induction false} WriteDue(limit: int, b: Build, next: Seg)
    requires GroupLines(b.opener, b.body) != [] && Breaks(limit, Filled(b), b.fence, next)
    requires b.body == [] ==> Due(limit, b, next)
    ensures Due(limit, Write(b), next)
  {
    hide Consistent, FenceAfter, Reassemble, Breaks, UpTo, GroupLines, Write;
    WrittenUpTo(b, |b.groups|);
    forall k | 0 <= k <= |b.groups| && UpTo(Write(b).groups, k) == |b.segs|
      ensures Breaks(limit, Write(b).groups[k], b.fence, next)
    {
      WrittenUpTo(b, k);
    }
  }

  lemma {:induction false} WritePending(limit: int, b: Build, slice: bool)
    requires GroupLines(b.opener, b.body) != [] && (b.body == [] ==> Pending(limit, b, slice))
    requires FullCut(limit, Filled(b), b.fence) || (slice && Roomless(limit, Filled(b), b.fence))
    ensures Pending(limit, Write(b), slice)
  {
    hide Consistent, FenceAfter, Reassemble, FullCut, Roomless, UpTo, GroupLines, Write;
    WrittenUpTo(b, |b.groups|);
    forall k | 0 <= k <= |b.groups| && UpTo(Write(b).groups, k) == |b.segs|
      ensures FullCut(limit, Write(b).groups[k], b.fence) || (slice && Roomless(limit, Write(b).groups[k], b.fence))
    {
      WrittenUpTo(b, k);
    }
  }

  /** A slice of `room` characters fits behind what the piece already holds, and uses up the room. */
  lemma {:induction false} RoomFits(limit: int, line: string, size: nat, fence: string)
    requires limit >= 17 && TooLong(limit, Inner(line, size, fence)) && !Diverges(limit, line, fence)
    requires size == 0 || Room(limit, Inner(line, size, fence)) >= 200
    ensures var room := Room(limit, Inner(line, size, fence));
      && room <= |line| && size + room + 1 <= limit - 15 && size + room + 1 >= limit - 16 - |fence|
      && InnerStep(limit, Inner(line, size, fence)) == Inner(line[room..], SizeAfterFlush(fence), fence)
      && !Diverges(limit, line[room..], fence)
  {
  }

  /** Closing a piece with hardly any room leaves a smaller one. */
  lemma {:induction false} FlushShrinks(limit: int, line: string, size: nat, fence: string)
    requires limit >= 17 && TooLong(limit, Inner(line, size, fence)) && !Diverges(limit, line, fence)
    requires size > 0 && Room(limit, Inner(line, size, fence)) < 200
    ensures SizeAfterFlush(fence) < size && size + 200 > limit - 17 - |fence|
    ensures InnerStep(limit, Inner(line, size, fence)) == Inner(line, SizeAfterFlush(fence), fence)
    ensures TooLong(limit, Inner(line, SizeAfterFlush(fence), fence))
  {
  }

  /** The slices of an over-long line, until what is left of it fits. */
  method Slice(limit: int, pieces: seq<string>, cur: seq<string>, size: nat, fence: string, line: string,
               ghost b: Build, ghost done: seq<string>)
    returns (pieces': seq<string>, cur': seq<string>, size': nat, rest: string, ghost b': Build, ghost part: string)
    requires Rep(limit, pieces, cur, size, fence, b) && Reassemble(b.segs) == (done, "")
    requires limit >= 17 && !Diverges(limit, line, fence) && Tight(limit, b) && Pending(limit, b, false)
    ensures Rep(limit, pieces', cur', size', fence, b') && Reassemble(b'.segs) == (done, part) && line == part + rest
    ensures !TooLong(limit, Inner(rest, size', fence)) && Tight(limit, b') && Pending(limit, b', false)
    ensures exists n: nat :: InnerSteps(limit, Inner(line, size, fence), n) == Inner(rest, size', fence)
    ensures !TooLong(limit, Inner(line, size, fence)) ==>
      rest == line && b' == b && pieces' == pieces && cur' == cur && size' == size
  {
    hide Consistent, RenderAll, GroupLines, Segs, FenceAfter, Reassemble, Tight, Pending, InnerSteps, InnerStep, Room, Diverges,
      TooLong, Rep, Write, Put, SizeAfterFlush;
    pieces', cur', size', rest, b', part := pieces, cur, size, line, b, "";
    PendingIsDue(limit, b, false, Seg("", false));
    ghost var steps: nat := 0;
    NoSteps(limit, Inner(line, size, fence));
    while TooLong(limit, Inner(rest, size', fence))
      invariant Rep(limit, pieces', cur', size', fence, b') && Reassemble(b'.segs) == (done, part) && line == part + rest
      invariant InnerSteps(limit, Inner(line, size, fence), steps) == Inner(rest, size', fence)
      invariant !Diverges(limit, rest, fence) && Tight(limit, b')
      invariant Pending(limit, b', TooLong(limit, Inner(rest, size', fence)))
      invariant !TooLong(limit, Inner(line, size, fence)) ==>
        rest == line && b' == b && pieces' == pieces && cur' == cur && size' == size
      decreases |rest|, size'
    {
      var room := Room(limit, Inner(rest, size', fence));
      RepMeans(limit, pieces', cur', size', fence, b');
      StepsSnoc(limit, Inner(line, size, fence), steps);
      steps := steps + 1;
      if !(size' > 0 && room < 200) {
        RoomFits(limit, rest, size', fence);
        ghost var slice := Seg(rest[..room], false);
        PutRep(limit, pieces', cur', size', fence, b', slice);
        PutSlice(limit, b', slice, fence, size', cur');
        cur', size', b', part := cur' + [rest[..room]], size' + room + 1, Put(b', slice), part + rest[..room];
        rest := rest[room..];
      } else {
        FlushShrinks(limit, rest, size', fence);
        PutNothing(limit, b', fence, size', cur');
      }
      RepMeans(limit, pieces', cur', size', fence, b');
      pieces', cur', size' := Flush(limit, pieces', cur', fence, size', b');
      b' := Write(b');
    }
  }

  /** A piece that a slice of all its room is put into may be closed behind it. */
  lemma {:induction false} PutSlice(limit: int, b: Build, slice: Seg, fence: string, size: nat, cur: seq<string>)
    requires Tight(limit, b) && Pending(limit, b, true) && !slice.ends && fence == b.fence
    requires cur == GroupLines(b.opener, b.body) && size == Size(cur)
    requires size + |slice.text| + 1 >= limit - 16 - |fence|
    ensures Tight(limit, Write(Put(b, slice))) && Pending(limit, Write(Put(b, slice)), false)
    ensures Pending(limit, Write(Put(b, slice)), true)
  {
    hide Consistent, FenceAfter, Reassemble, Tight, Pending, Due, Write;
    PendingIsDue(limit, b, true, slice);
    PutTight(limit, b, slice);
    var b' := Put(b, slice);
    LinesSnoc(b.opener, b.body, slice);
    SizeSnoc(cur, slice.text);
    WriteTight(limit, b');
    WritePending(limit, b', false);
    PendingIsDue(limit, Write(b'), false, Seg("", false));
  }

  /** One with hardly any room may be closed before a slice. */
  lemma {:induction false} PutNothing(limit: int, b: Build, fence: string, size: nat, cur: seq<string>)
    requires Tight(limit, b) && Pending(limit, b, true) && fence == b.fence && cur != []
    requires cur == GroupLines(b.opener, b.body) && size == Size(cur) && size + 200 > limit - 17 - |fence|
    ensures Tight(limit, Write(b)) && Pending(limit, Write(b), true)
  {
    hide Consistent, FenceAfter, Reassemble, Tight, Pending, Due, Write;
    WriteTight(limit, b);
    WritePending(limit, b, true);
  }

  lemma {:induction false} SizeSnoc(lines: seq<string>, line: string)
    ensures Size(lines + [line]) == Size(lines) + |line| + 1
  {
    assert (lines + [line])[..|lines|] == lines;
  }

  /** A line, or what is left of an over-long one, goes into the piece being filled - or starts the next one, when it
      does not fit any more. */
  method AddLine(limit: int, pieces: seq<string>, cur: seq<string>, size: nat, fence: string, line: string,
                 ghost b: Build, ghost done: seq<string>, ghost part: string)
    returns (pieces': seq<string>, cur': seq<string>, size': nat, fence': string, ghost b': Build)
    requires Rep(limit, pieces, cur, size, fence, b) && Reassemble(b.segs) == (done, part)
    requires !TooLong(limit, Inner(line, size, fence)) && limit >= 17 && Tight(limit, b) && Pending(limit, b, false)
    ensures Rep(limit, pieces', cur', size', fence', b') && cur' != [] && Tight(limit, b') && Pending(limit, b', false)
    ensures b'.segs == b.segs + [Seg(line, true)] && Reassemble(b'.segs) == (done + [part + line], "")
    ensures size + |line| + 1 <= limit - 16 - CloseSize(fence) ==> pieces' == pieces && cur' == cur + [line]
    ensures fence' == if IsFenceMark(line) then (if fence != "" then "" else Strip(line)) else fence
  {
    hide Consistent, RenderAll, GroupLines, Segs, FenceAfter, Reassemble, Tight, Pending, Due;
    pieces', cur', size', b' := pieces, cur, size, b;
    PendingIsDue(limit, b, false, Seg(line, true));
    if size + |line| + 1 > limit - 16 - (if fence != "" then 4 else 0) && cur != [] {
      WriteTight(limit, b);
      WriteDue(limit, b, Seg(line, true));
      pieces', cur', size' := Flush(limit, pieces, cur, fence, size, b);
      b' := Write(b);
    }
    PutRep(limit, pieces', cur', size', fence, b', Seg(line, true));
    PutTight(limit, b', Seg(line, true));
    cur', size', b' := cur' + [line], size' + |line| + 1, Put(b', Seg(line, true));
    fence' := fence;
    if IsFenceMark(line) {
      fence' := if fence != "" then "" else Strip(line);
    }
  }

  ghost predicate Uncut(segs: seq<Seg>, m: nat) {
    forall i :: 0 <= i < |segs| ==> segs[i].ends && |segs[i].text| <= m
  }

  lemma {:induction false} OpenerIsShort(segs: seq<Seg>, m: nat)
    requires Uncut(segs, m)
    ensures |FenceAfter(segs)| <= m
  {
    if segs != [] {
      hide IsFenceMark, Strip;
      StripShortens(segs[|segs| - 1].text);
      OpenerIsShort(segs[..|segs| - 1], m);
    }
  }

  /** A limit with room behind every opener met so far never diverges: with 218 characters and twice the opener,
      cutting always ends. */
  lemma {:induction false} RoomForEveryOpener(segs: seq<Seg>, limit: int, line: string)
    requires limit >= 218
    requires forall i :: 0 <= i < |segs| && segs[i].ends && IsFenceMark(segs[i].text) ==>
      limit >= 218 + 2 * |Strip(segs[i].text)|
    ensures limit >= 218 + 2 * |FenceAfter(segs)| && !Diverges(limit, line, FenceAfter(segs))
    decreases |segs|
  {
    hide IsFenceMark, Strip;
    if segs != [] {
      RoomForEveryOpener(segs[..|segs| - 1], limit, line);
    }
  }

  /** Room behind every opener the text may come to: every line, or end of a line, that looks like a fence mark. */
  ghost predicate Roomy(lines: seq<string>, limit: int) {
    limit >= 218
    && forall i, j :: 0 <= i < |lines| && 0 <= j <= |lines[i]| && IsFenceMark(lines[i][j..]) ==>
         limit >= 218 + 2 * |Strip(lines[i][j..])|
  }

  lemma {:induction false} FenceOf(b: Build)
    ensures b.fence == FenceAfter(b.segs)
  {
  }

  lemma {:induction false} RoomyIsWide(lines: seq<string>, limit: int)
    ensures Roomy(lines, limit) ==> limit >= 218
  {
  }

  lemma {:induction false} FitsIsWide(lines: seq<string>, limit: int)
    requires lines != []
    ensures Fits(lines, limit) ==> limit >= 17
  {
  }

  ghost predicate EndsALine(lines: seq<string>, x: string) {
    exists i :: 0 <= i < |lines| && |x| <= |lines[i]| && lines[i][|lines[i]| - |x|..] == x
  }

  /** The last slice of a line is an end of it. */
  lemma {:induction false} LastSlicesEndLines(segs: seq<Seg>, k: nat)
    requires k < |segs| && segs[k].ends
    ensures EndsALine(Reassemble(segs).0, segs[k].text)
    decreases |segs|
  {
    var front, last := segs[..|segs| - 1], segs[|segs| - 1];
    var (done, part) := Reassemble(front);
    if k < |front| {
      LastSlicesEndLines(front, k);
      var i :| 0 <= i < |done| && |segs[k].text| <= |done[i]| && done[i][|done[i]| - |segs[k].text|..] == segs[k].text;
      assert Reassemble(segs).0[i] == done[i];
    } else {
      var line := part + last.text;
      assert Reassemble(segs).0[|done|] == line;
      assert line[|line| - |last.text|..] == last.text;
    }
  }

  /** A text with such room is cut to the end. */
  lemma {:induction false} RoomyNeverDiverges(lines: seq<string>, limit: int, segs: seq<Seg>, i: nat)
    requires Roomy(lines, limit) && i <= |lines| && Reassemble(segs) == (lines[..i], "")
    ensures forall line :: !Diverges(limit, line, FenceAfter(segs))
  {
    hide Reassemble, FenceAfter, IsFenceMark, Strip, Diverges;
    forall k | 0 <= k < |segs| && segs[k].ends && IsFenceMark(segs[k].text)
      ensures limit >= 218 + 2 * |Strip(segs[k].text)|
    {
      LastSlicesEndLines(segs, k);
      var x := segs[k].text;
      var j :| 0 <= j < i && |x| <= |lines[..i][j]| && lines[..i][j][|lines[..i][j]| - |x|..] == x;
      assert lines[j][|lines[j]| - |x|..] == x;
    }
    forall line ensures !Diverges(limit, line, FenceAfter(segs)) {
      RoomForEveryOpener(segs, limit, line);
    }
  }

  ghost predicate Short(lines: seq<string>, limit: int, m: nat) {
    2 * m + 17 <= limit && forall i :: 0 <= i < |lines| ==> |lines[i]| <= m
  }

  /** The opener of the fence that whole lines leave open. */
  function FenceOfLines(lines: seq<string>): string {
    if lines == [] then ""
    else
      var before, last := FenceOfLines(lines[..|lines| - 1]), lines[|lines| - 1];
      if IsFenceMark(last) then (if before != "" then "" else Strip(last)) else before
  }

  lemma {:induction false} FenceOfSnoc(lines: seq<string>, line: string)
    ensures FenceOfLines(lines + [line])
      == if IsFenceMark(line) then (if FenceOfLines(lines) != "" then "" else Strip(line)) else FenceOfLines(lines)
  {
    assert (lines + [line])[..|lines|] == lines;
  }

  /** All lines with their line ends, and four characters more when there is a fence, leave the reserve free. */
  ghost predicate Fits(lines: seq<string>, limit: int) {
    && Size(lines) <= limit - 16
    && ((exists i :: 0 <= i < |lines| && IsFenceMark(lines[i])) ==> Size(lines) <= limit - 20)
  }

  lemma {:induction false} SizeGrows(lines: seq<string>, i: nat)
    requires i <= |lines|
    ensures Size(lines[..i]) <= Size(lines)
    decreases |lines|
  {
    if i == |lines| {
      assert lines[..i] == lines;
    } else {
      SizeGrows(lines[..|lines| - 1], i);
      assert lines[..|lines| - 1][..i] == lines[..i];
    }
  }

  lemma {:induction false} FenceIsALine(lines: seq<string>, i: nat)
    requires i <= |lines| && FenceOfLines(lines[..i]) != ""
    ensures exists j :: 0 <= j < i && IsFenceMark(lines[j]) && |FenceOfLines(lines[..i])| <= |lines[j]|
    ensures |FenceOfLines(lines[..i])| + 1 <= Size(lines[..i])
    decreases i
  {
    hide IsFenceMark, Strip;
    assert lines[..i][..i - 1] == lines[..i - 1];
    StripShortens(lines[i - 1]);
    if !IsFenceMark(lines[i - 1]) {
      FenceIsALine(lines, i - 1);
    }
  }

  /** In a text that fits each line fits behind those before it. */
  lemma {:induction false} LineFits(lines: seq<string>, limit: int, i: nat)
    requires Fits(lines, limit) && i < |lines|
    ensures var f := FenceOfLines(lines[..i]);
      && Size(lines[..i]) + |lines[i]| + 1 <= limit - 16 - CloseSize(f)
      && forall size: nat :: !TooLong(limit, Inner(lines[i], size, f))
  {
    hide IsFenceMark, FenceOfLines;
    SizeGrows(lines, i + 1);
    assert lines[..i + 1] == lines[..i] + [lines[i]];
    SizeSnoc(lines[..i], lines[i]);
    var f := FenceOfLines(lines[..i]);
    if f != "" {
      FenceIsALine(lines, i);
      var j :| 0 <= j < i && IsFenceMark(lines[j]);
    }
  }

  ghost function Nothing(): Build {
    Work([], "", [], [], "")
  }

  lemma {:induction false} NothingYet(limit: int, lines: seq<string>)
    ensures Covers(Nothing(), lines, 0) && Nothing().segs == [] && Nothing().fence == ""
    ensures Tight(limit, Nothing()) && Pending(limit, Nothing(), false)
    ensures FenceOfLines(lines[..0]) == "" && lines[..0] == []
    ensures limit >= 17 ==> Rep(limit, [], [], 0, "", Nothing())
  {
  }

  /** All segments so far are the first `i` lines of the text. */
  ghost predicate Covers(b: Build, lines: seq<string>, i: nat) {
    i <= |lines| && Reassemble(b.segs) == (lines[..i], "")
  }

  /** The pieces of `text`, or `None` where the loop would not end. The ghost result says what they are made of:
      the groups are the pieces, the body of the group being filled is what was dropped - or, for `None`, the
      segments are what was cut before the line that is never finished. */
  method SplitText(text: string, limit: int, ghost m: nat) returns (r: Option<seq<string>>, ghost b: Build)
    ensures r.Some? ==> r.value == if b.groups == [] then [""] else RenderAll(b.groups)
    ensures r.Some? ==> forall i :: 0 <= i < |r.value| ==> |r.value[i]| <= limit
    ensures r.Some? ==> Covers(b, Split(text), |Split(text)|)
    ensures r.Some? ==> b.body == [] || Blank(Join(GroupLines(b.opener, b.body)))
    ensures r.None? ==>
      exists i: nat :: i < |Split(text)| && Covers(b, Split(text), i) && Diverges(limit, Split(text)[i], b.fence)
    ensures Roomy(Split(text), limit) ==> r.Some?
    ensures r.Some? ==> Tight(limit, b)
    ensures Fits(Split(text), limit) ==>
      r == Some([if Blank(text) then "" else WithClose(text, FenceOfLines(Split(text)))])
    ensures r.Some? && Short(Split(text), limit, m) ==> Uncut(b.segs, m)
  {
    hide Consistent, RenderAll, GroupLines, Segs, FenceAfter, Reassemble, Roomy, Tight, Pending, FenceOfLines, Fits;
    var lines := Split(text);
    b := Nothing();
    var pieces: seq<string>, cur: seq<string>, size, fence := [], [], 0, "";
    NothingYet(limit, lines);
    if limit < 17 {
      RoomyIsWide(lines, limit);
      FitsIsWide(lines, limit);
      return None, b;
    }
    var i := 0;
    while i < |lines|
      invariant 0 <= i <= |lines|
      invariant Rep(limit, pieces, cur, size, fence, b) && Covers(b, lines, i)
      invariant i > 0 ==> cur != []
      invariant Short(lines, limit, m) ==> Uncut(b.segs, m)
      invariant Tight(limit, b) && Pending(limit, b, false)
      invariant Fits(lines, limit) ==> pieces == [] && cur == lines[..i] && fence == FenceOfLines(lines[..i])
    {
      if Fits(lines, limit) {
        LineFits(lines, limit, i);
      }
      if Diverges(limit, lines[i], fence) {
        if Roomy(lines, limit) {
          FenceOf(b);
          RoomyNeverDiverges(lines, limit, b.segs, i);
        }
        return None, b;
      }
      pieces, cur, size, fence, b := CutLine(limit, pieces, cur, size, fence, lines, i, b, m);
      i := i + 1;
    }
    assert lines[..|lines|] == lines;
    r, b := Finish(limit, text, pieces, cur, size, fence, b);
  }

  /** What is still in the piece being filled is written out, unless it is blank. */
  method Finish(
    limit: int, text: string, pieces: seq<string>, cur: seq<string>, size: nat, fence: string, ghost b: Build)
    returns (r: Option<seq<string>>, ghost b': Build)
    requires Rep(limit, pieces, cur, size, fence, b) && cur != [] && Tight(limit, b)
    ensures r == Some(if b'.groups == [] then [""] else RenderAll(b'.groups)) && b'.segs == b.segs && b'.fence == b.fence
    ensures limit >= 0 ==> forall i :: 0 <= i < |r.value| ==> |r.value[i]| <= limit
    ensures b'.body == [] || Blank(Join(GroupLines(b'.opener, b'.body)))
    ensures Tight(limit, b')
    ensures pieces == [] && cur == Split(text) ==> r == Some([if Blank(text) then "" else WithClose(text, fence)])
  {
    hide Consistent, RenderAll, GroupLines, Segs, FenceAfter, Reassemble, Tight, Blank, Join, WithClose;
    b' := b;
    var all := pieces;
    JoinSplit(text);
    NoPieces(b);
    if !Blank(Join(cur)) {
      WriteTight(limit, b);
      var rest, n := [], 0;
      all, rest, n := Flush(limit, pieces, cur, fence, size, b);
      b' := Write(b);
      assert pieces == [] ==> all == [WithClose(Join(cur), fence)];
    }
    r := Some(if all != [] then all else [""]);
  }

  lemma {:induction false} NoPieces(b: Build)
    ensures RenderAll(b.groups) == [] <==> b.groups == []
  {
  }

  /** Short lines are never too long. */
  lemma {:induction false} ShortFits(lines: seq<string>, limit: int, m: nat, i: nat, b: Build)
    requires Short(lines, limit, m) && i < |lines| && Uncut(b.segs, m)
    ensures forall size: nat :: !TooLong(limit, Inner(lines[i], size, b.fence))
  {
    hide FenceAfter, Uncut, Consistent;
    FenceOf(b);
    OpenerIsShort(b.segs, m);
  }

  lemma {:induction false} UncutSnoc(segs: seq<Seg>, lines: seq<string>, limit: int, m: nat, i: nat)
    requires Uncut(segs, m) && Short(lines, limit, m) && i < |lines|
    ensures Uncut(segs + [Seg(lines[i], true)], m)
  {
  }

  method CutLine(limit: int, pieces: seq<string>, cur: seq<string>, size: nat, fence: string,
                 lines: seq<string>, i: nat, ghost b: Build, ghost m: nat)
    returns (pieces': seq<string>, cur': seq<string>, size': nat, fence': string, ghost b': Build)
    requires limit >= 17 && Rep(limit, pieces, cur, size, fence, b) && i < |lines| && Covers(b, lines, i)
    requires !Diverges(limit, lines[i], fence) && (Short(lines, limit, m) ==> Uncut(b.segs, m))
    requires Tight(limit, b) && Pending(limit, b, false)
    requires Fits(lines, limit) ==> pieces == [] && cur == lines[..i] && fence == FenceOfLines(lines[..i])
    ensures Rep(limit, pieces', cur', size', fence', b') && Covers(b', lines, i + 1) && cur' != []
    ensures Tight(limit, b') && Pending(limit, b', false)
    ensures Fits(lines, limit) ==> pieces' == [] && cur' == lines[..i + 1] && fence' == FenceOfLines(lines[..i + 1])
    ensures Short(lines, limit, m) ==> Uncut(b'.segs, m)
  {
    hide Consistent, RenderAll, GroupLines, Segs, FenceAfter, Reassemble, Tight, Pending, Fits, Rep, Diverges, TooLong,
      FenceOfLines, IsFenceMark, Strip, Uncut, Short, Size;
    RepMeans(limit, pieces, cur, size, fence, b);
    if Short(lines, limit, m) {
      ShortFits(lines, limit, m, i, b);
    }
    if Fits(lines, limit) {
      LineFits(lines, limit, i);
    }
    FenceOfSnoc(lines[..i], lines[i]);
    ghost var part;
    var rest;
    pieces', cur', size', rest, b', part := Slice(limit, pieces, cur, size, fence, lines[i], b, lines[..i]);
    ghost var before := b';
    pieces', cur', size', fence', b' := AddLine(limit, pieces', cur', size', fence, rest, b', lines[..i], part);
    if Short(lines, limit, m) {
      UncutSnoc(before.segs, lines, limit, m, i);
    }
    assert lines[..i + 1] == lines[..i] + [lines[i]];
  }

  // ---- reading the pieces ---------------------------------------------------------------------

  /** Whether a reader of `lines` is inside a fence at their end: every fence mark opens one or closes it. */
  function InsideAfter(lines: seq<string>): bool {
    if lines == [] then false
    else if IsFenceMark(lines[|lines| - 1]) then !InsideAfter(lines[..|lines| - 1])
    else InsideAfter(lines[..|lines| - 1])
  }

  /** No slice before the last one of its line looks like a fence mark. */
  ghost predicate PlainSlices(segs: seq<Seg>) {
    forall i :: 0 <= i < |segs| && !segs[i].ends ==> !IsFenceMark(segs[i].text)
  }

  lemma {:induction false} RStripKeepsMark(s: string)
    requires FENCE <= s
    ensures FENCE <= RStrip(s)
  {
    hide RStrip;
    RStripIs(s);
    var r := RStrip(s);
    assert s[2] == '`';
    assert !IsSpace(s[2]);
    assert |r| >= 3;
  }

  lemma {:induction false} StripKeepsMark(line: string)
    requires IsFenceMark(line)
    ensures FENCE <= Strip(line) && IsFenceMark(Strip(line))
  {
    RStripKeepsMark(LStrip(line));
  }

  lemma {:induction false} OpenerIsMark(segs: seq<Seg>)
    ensures FenceAfter(segs) != "" ==> IsFenceMark(FenceAfter(segs))
  {
    if segs != [] {
      var last := segs[|segs| - 1];
      OpenerIsMark(segs[..|segs| - 1]);
      if last.ends && IsFenceMark(last.text) {
        StripKeepsMark(last.text);
      }
    }
  }

  /** The opener that is repeated is the last fence mark met, without the white space around it. */
  lemma {:induction false} OpenerIsLastMark(segs: seq<Seg>) returns (i: nat)
    requires FenceAfter(segs) != ""
    ensures i < |segs| && segs[i].ends && IsFenceMark(segs[i].text) && FenceAfter(segs) == Strip(segs[i].text)
    ensures forall j :: i < j < |segs| ==> !(segs[j].ends && IsFenceMark(segs[j].text))
    decreases |segs|
  {
    hide IsFenceMark, Strip;
    i := |segs| - 1;
    if !(segs[i].ends && IsFenceMark(segs[i].text)) {
      i := OpenerIsLastMark(segs[..|segs| - 1]);
    }
  }

  lemma {:induction false} InsideSnoc(lines: seq<string>, line: string)
    ensures InsideAfter(lines + [line]) == if IsFenceMark(line) then !InsideAfter(lines) else InsideAfter(lines)
  {
    assert (lines + [line])[..|lines|] == lines;
  }

  lemma {:induction false} FenceSnoc(segs: seq<Seg>, seg: Seg)
    ensures FenceAfter(segs + [seg]) ==
      if seg.ends && IsFenceMark(seg.text) then (if FenceAfter(segs) != "" then "" else Strip(seg.text)) else FenceAfter(segs)
  {
    assert (segs + [seg])[..|segs|] == segs;
  }

  lemma {:induction false} LinesSnoc(opener: string, body: seq<Seg>, seg: Seg)
    ensures GroupLines(opener, body + [seg]) == GroupLines(opener, body) + [seg.text]
  {
    assert (body + [seg])[..|body|] == body;
  }

  lemma {:induction false} InsideAtStart(before: seq<Seg>)
    ensures InsideAfter(GroupLines(FenceAfter(before), [])) == (FenceAfter(before) != "")
  {
    OpenerIsMark(before);
    InsideSnoc([], FenceAfter(before));
    assert [] + [FenceAfter(before)] == [FenceAfter(before)];
    assert [FenceAfter(before)] + Texts([]) == [FenceAfter(before)];
  }

  /** The reader of a piece is inside a fence exactly where the cutting is. */
  lemma {:induction false} InsideAgrees(before: seq<Seg>, body: seq<Seg>)
    requires PlainSlices(body)
    ensures InsideAfter(GroupLines(FenceAfter(before), body)) == (FenceAfter(before + body) != "")
  {
    hide FenceAfter, InsideAfter, GroupLines;
    if body == [] {
      assert before + body == before;
      InsideAtStart(before);
    } else {
      var front, last := body[..|body| - 1], body[|body| - 1];
      InsideAgrees(before, front);
      assert body == front + [last] && before + body == (before + front) + [last];
      FenceSnoc(before + front, last);
      LinesSnoc(FenceAfter(before), front, last);
      InsideSnoc(GroupLines(FenceAfter(before), front), last.text);
      if last.ends && IsFenceMark(last.text) {
        StripKeepsMark(last.text);
      }
    }
  }

  lemma {:induction false} GroupEndsOutside(before: seq<Seg>, g: Group)
    requires g.opener == FenceAfter(before) && g.closed == (FenceAfter(before + g.body) != "")
    requires PlainSlices(g.body) && GroupLines(g.opener, g.body) != [] && AllOneLine(GroupLines(g.opener, g.body))
    ensures !InsideAfter(Split(Render(g)))
  {
    hide FenceAfter, InsideAfter, GroupLines, Join, Split;
    var lines := GroupLines(g.opener, g.body);
    InsideAgrees(before, g.body);
    if g.closed {
      JoinSnoc(lines, FENCE);
      assert Join(lines) + CLOSE == Join(lines) + [NL] + FENCE;
      SplitJoin(lines + [FENCE]);
      InsideSnoc(lines, FENCE);
    } else {
      SplitJoin(lines);
    }
  }

  lemma {:induction false} SlicesAreOneLine(segs: seq<Seg>)
    requires AllOneLine(Reassemble(segs).0) && OneLine(Reassemble(segs).1)
    ensures forall i :: 0 <= i < |segs| ==> OneLine(segs[i].text)
  {
    if segs != [] {
      var front, last := segs[..|segs| - 1], segs[|segs| - 1];
      var (done, part) := Reassemble(front);
      var whole := part + last.text;
      assert OneLine(whole) by {
        if last.ends {
          assert Reassemble(segs).0[|done|] == whole;
        }
      }
      assert forall i :: 0 <= i < |done| ==> Reassemble(segs).0[i] == done[i];
      forall c | c in part ensures c in whole {
      }
      forall c | c in last.text ensures c in whole {
      }
      SlicesAreOneLine(front);
    }
  }

  lemma {:induction false} StripIsWithin(s: string)
    ensures forall c :: c in Strip(s) ==> c in s
  {
    hide LStrip, RStrip;
    var l := LStrip(s);
    LStripIs(s);
    RStripIs(l);
    assert forall c :: c in RStrip(l) ==> c in l;
  }

  lemma {:induction false} GroupsEndOutside(groups: seq<Group>)
    requires WellFenced(groups) && PlainSlices(Segs(groups))
    requires forall i :: 0 <= i < |Segs(groups)| ==> OneLine(Segs(groups)[i].text)
    ensures forall i :: 0 <= i < |groups| ==> !InsideAfter(Split(RenderAll(groups)[i]))
  {
    hide FenceAfter, InsideAfter, GroupLines, Render;
    if groups != [] {
      var front, g := groups[..|groups| - 1], groups[|groups| - 1];
      assert forall i :: 0 <= i < |Segs(front)| ==> Segs(groups)[i] == Segs(front)[i];
      assert forall i :: 0 <= i < |g.body| ==> Segs(groups)[|Segs(front)| + i] == g.body[i];
      GroupsEndOutside(front);
      BodyIsOneLine(front, g);
      GroupEndsOutside(Segs(front), g);
    }
  }

  lemma {:induction false} BodyIsOneLine(front: seq<Group>, g: Group)
    requires g.opener == FenceAfter(Segs(front))
    requires forall i :: 0 <= i < |Segs(front)| ==> OneLine(Segs(front)[i].text)
    requires forall i :: 0 <= i < |g.body| ==> OneLine(g.body[i].text)
    ensures AllOneLine(GroupLines(g.opener, g.body))
  {
    FenceOneLine(Segs(front));
    TextsAt(g.body);
  }

  lemma {:induction false} FenceOneLine(segs: seq<Seg>)
    requires forall i :: 0 <= i < |segs| ==> OneLine(segs[i].text)
    ensures OneLine(FenceAfter(segs))
  {
    if segs != [] {
      FenceOneLine(segs[..|segs| - 1]);
      StripIsWithin(segs[|segs| - 1].text);
    }
  }

  lemma {:induction false} TextsAt(body: seq<Seg>)
    ensures |Texts(body)| == |body| && forall i :: 0 <= i < |body| ==> Texts(body)[i] == body[i].text
  {
    if body != [] {
      TextsAt(body[..|body| - 1]);
    }
  }

  /** When no slice of an over-long line looks like a fence mark, every piece read by itself ends outside a fence. */
  lemma {:induction false} PiecesEndOutside(text: string, b: Build)
    requires Reassemble(b.segs) == (Split(text), "") && PlainSlices(b.segs)
    ensures forall i :: 0 <= i < |b.groups| ==> !InsideAfter(Split(RenderAll(b.groups)[i]))
  {
    SplitGivesLines(text);
    SlicesAreOneLine(b.segs);
    assert forall i :: 0 <= i < |Segs(b.groups)| ==> Segs(b.groups)[i] == b.segs[i];
    GroupsEndOutside(b.groups);
  }
}
