/** Normalised text - lower case, every run of other characters one space - and the map back to where it came from. */
module Normalise {
  import opened Text

  predicate Alnum(c: char) {
    '0' <= c <= '9' || 'a' <= c <= 'z'
  }

  /** `str.lower` of one character. Two characters beyond ASCII lower to one of a-z: U+0130 (to "i" and a combining
      dot) and U+212A (to "k"). What any other character lowers to is a separator here, so it stands for itself. */
  function Lower(c: char): (s: string)
    ensures 1 <= |s| <= 2 && (|s| == 2 ==> Alnum(s[0]) && !Alnum(s[1]))
  {
    if 'A' <= c <= 'Z' then [(c as int + 32) as char]
    else if c == '\U{130}' then ['i', '\U{307}']
    else if c == '\U{212a}' then ['k']
    else [c]
  }

  function LowerAll(s: string): string {
    if s == [] then [] else LowerAll(s[..|s| - 1]) + Lower(s[|s| - 1])
  }

  /** `re.sub` of every run outside 0-9a-z by one space. */
  function Substituted(t: string): string {
    if t == [] then [] else OneMore(Substituted(t[..|t| - 1]), t[..|t| - 1], t[|t| - 1])
  }

  /** What `c` adds to the substitution of `t`: a separator opens a run or continues one. */
  function OneMore(sub: string, t: string, c: char): string {
    if Alnum(c) then sub + [c] else if t != [] && !Alnum(t[|t| - 1]) then sub else sub + [' ']
  }

  /** The text the checks compare. */
  function NormText(s: string): string {
    Strip(Substituted(LowerAll(s)))
  }

  // ---- the same, character by character, with the index each character came from ----------------

  datatype Traced = Traced(text: string, at: seq<int>)

  function Step(o: Traced, c: char, i: int): Traced {
    if Alnum(c) then Traced(o.text + [c], o.at + [i])
    else if o.text != [] && o.text[|o.text| - 1] != ' ' then Traced(o.text + [' '], o.at + [-1])
    else o
  }

  /** One character of the source: all it lowers to. */
  function Feed(o: Traced, c: char, i: int): Traced {
    var low := Lower(c);
    if |low| == 1 then Step(o, low[0], i) else Step(Step(o, low[0], i), low[1], i)
  }

  function Trace(s: string): Traced {
    if s == [] then Traced([], []) else Feed(Trace(s[..|s| - 1]), s[|s| - 1], |s| - 1)
  }

  function TrimEnd(o: Traced): (r: Traced)
    requires |o.text| == |o.at|
    ensures |r.text| == |r.at| && r.text <= o.text && r.at <= o.at
    decreases |o.text|
  {
    if o.text != [] && o.text[|o.text| - 1] == ' ' then
      TrimEnd(Traced(o.text[..|o.text| - 1], o.at[..|o.at| - 1]))
    else o
  }

  function Normed(s: string): (r: Traced)
    ensures |r.text| == |r.at|
  {
    SameLength(s);
    TrimEnd(Trace(s))
  }

  lemma {:induction false} SameLength(s: string)
    ensures |Trace(s).text| == |Trace(s).at|
  {
    if s != [] {
      SameLength(s[..|s| - 1]);
    }
  }

  lemma {:induction false} TraceSnoc(s: string, c: char)
    ensures Trace(s + [c]) == Feed(Trace(s), c, |s|)
    ensures LowerAll(s + [c]) == LowerAll(s) + Lower(c)
  {
    hide Feed, Lower;
    assert (s + [c])[..|s|] == s;
  }

  /** Normalising with the map, one character at a time. */
  method NormWithMap(s: string) returns (text: string, at: seq<int>)
    ensures Traced(text, at) == Normed(s)
  {
    hide Trace, LowerAll;
    text, at := [], [];
    TraceNothing();
    assert s[..0] == [];
    for i := 0 to |s|
      invariant Traced(text, at) == Trace(s[..i])
    {
      TraceSnoc(s[..i], s[i]);
      assert s[..i + 1] == s[..i] + [s[i]];
      var low := Lower(s[i]);
      ghost var before := Traced(text, at);
      for j := 0 to |low|
        invariant j == 0 ==> Traced(text, at) == before
        invariant j == 1 ==> Traced(text, at) == Step(before, low[0], i)
        invariant j == 2 ==> Traced(text, at) == Step(Step(before, low[0], i), low[1], i)
      {
        if Alnum(low[j]) {
          text, at := text + [low[j]], at + [i];
        } else if text != [] && text[|text| - 1] != ' ' {
          text, at := text + [' '], at + [-1];
        }
      }
    }
    assert s[..|s|] == s;
    SameLength(s);
    while text != [] && text[|text| - 1] == ' '
      invariant |text| == |at| && TrimEnd(Traced(text, at)) == Normed(s)
    {
      text, at := text[..|text| - 1], at[..|at| - 1];
    }
  }

  lemma {:induction false} TraceNothing()
    ensures Trace([]) == Traced([], [])
  {
  }

  // ---- the two normalisations agree -------------------------------------------------------------

  /** A traced text is tidy: no space first, no two spaces in a row, and nothing but a-z, 0-9 and spaces. */
  ghost predicate Tidy(text: string) {
    && (text != [] ==> text[0] != ' ')
    && (forall i :: 0 <= i < |text| ==> Alnum(text[i]) || text[i] == ' ')
    && forall i :: 0 < i < |text| && text[i] == ' ' ==> text[i - 1] != ' '
  }

  lemma {:induction false} StepIsTidy(o: Traced, c: char, i: int)
    requires Tidy(o.text)
    ensures Tidy(Step(o, c, i).text)
  {
  }

  lemma {:induction false} TraceIsTidy(s: string)
    ensures Tidy(Trace(s).text)
  {
    if s != [] {
      hide Trace, Tidy, Step, Lower;
      var front, c := s[..|s| - 1], s[|s| - 1];
      assert s == front + [c];
      TraceSnoc(front, c);
      TraceIsTidy(front);
      var low := Lower(c);
      StepIsTidy(Trace(front), low[0], |front|);
      if |low| == 2 {
        StepIsTidy(Step(Trace(front), low[0], |front|), low[1], |front|);
      }
    } else {
      TraceNothing();
    }
  }

  /** Up to a space in front, substituting what was lowered gives the traced text. */
  ghost predicate SameButFirst(sub: string, text: string, lowered: string) {
    && (sub == text || sub == [' '] + text)
    && (lowered == [] ==> sub == [])
    && (lowered != [] && !Alnum(lowered[|lowered| - 1]) ==> sub != [] && sub[|sub| - 1] == ' ')
    && (lowered != [] && Alnum(lowered[|lowered| - 1]) ==> text != [] && text[|text| - 1] != ' ')
  }

  lemma {:induction false} SubstituteStep(t: string, o: Traced, c: char, i: int)
    requires SameButFirst(Substituted(t), o.text, t)
    ensures SameButFirst(Substituted(t + [c]), Step(o, c, i).text, t + [c])
  {
    hide Substituted;
    SubstituteSnoc(t, c);
  }

  lemma {:induction false} SubstituteSnoc(t: string, c: char)
    ensures Substituted(t + [c]) == OneMore(Substituted(t), t, c)
  {
    hide OneMore;
    assert (t + [c])[..|t|] == t;
  }

  lemma {:induction false} SubstitutedIsTraced(s: string)
    ensures SameButFirst(Substituted(LowerAll(s)), Trace(s).text, LowerAll(s))
  {
    if s != [] {
      hide Trace, LowerAll, Substituted, SameButFirst, Step;
      var front, c := s[..|s| - 1], s[|s| - 1];
      assert s == front + [c];
      TraceSnoc(front, c);
      SubstitutedIsTraced(front);
      var low, t := Lower(c), LowerAll(front);
      SubstituteStep(t, Trace(front), low[0], |front|);
      if |low| == 2 {
        SubstituteStep(t + [low[0]], Step(Trace(front), low[0], |front|), low[1], |front|);
        assert t + low == (t + [low[0]]) + [low[1]];
      } else {
        assert low == [low[0]];
      }
    }
  }

  /** A tidy text loses at most its last space. */
  lemma {:induction false} TrimmedOnce(o: Traced)
    requires |o.text| == |o.at| && Tidy(o.text)
    ensures var r := TrimEnd(o);
      && (o.text == r.text || o.text == r.text + [' '])
      && (r.text == [] || r.text[|r.text| - 1] != ' ')
  {
    if o.text != [] && o.text[|o.text| - 1] == ' ' {
      var shorter := Traced(o.text[..|o.text| - 1], o.at[..|o.at| - 1]);
      assert shorter.text == [] || shorter.text[|shorter.text| - 1] != ' ';
      assert TrimEnd(shorter) == shorter;
      assert o.text == shorter.text + [' '];
    }
  }

  lemma {:induction false} SpaceIsSpace()
    ensures IsSpace(' ') && forall c :: Alnum(c) ==> !IsSpace(c)
  {
  }

  lemma {:induction false} StripFront(tail: string)
    requires tail == [] || !IsSpace(tail[0])
    ensures LStrip(tail) == tail && LStrip([' '] + tail) == tail
  {
    hide IsSpace;
    SpaceIsSpace();
    assert ([' '] + tail)[1..] == tail;
  }

  lemma {:induction false} StripBack(text: string)
    requires text == [] || !IsSpace(text[|text| - 1])
    ensures RStrip(text) == text && RStrip(text + [' ']) == text
  {
    hide IsSpace;
    SpaceIsSpace();
    assert (text + [' '])[..|text|] == text;
  }

  /** Stripping takes a space in front and a space behind, and nothing else. */
  lemma {:induction false} StripTidy(front: string, text: string, back: string)
    requires text != [] && !IsSpace(text[0]) && !IsSpace(text[|text| - 1])
    requires (front == [] || front == [' ']) && (back == [] || back == [' '])
    ensures Strip(front + (text + back)) == text
  {
    hide IsSpace, LStrip, RStrip;
    var tail := text + back;
    assert tail[0] == text[0];
    assert RStrip(tail) == text by {
      StripBack(text);
      if back == [] {
        assert tail == text;
      }
    }
    assert LStrip(front + tail) == tail by {
      StripFront(tail);
      if front == [] {
        assert front + tail == tail;
      }
    }
  }

  lemma {:induction false} StripNothing()
    ensures Strip([]) == [] && Strip([' ']) == []
  {
    StripFront([]);
    assert [' '] + [] == [' '];
  }

  /** The two normalisations give the same text. */
  lemma {:induction false} NormAgrees(s: string)
    ensures Normed(s).text == NormText(s)
  {
    hide Trace, LowerAll, Substituted, Strip, TrimEnd;
    SameLength(s);
    TraceIsTidy(s);
    SubstitutedIsTraced(s);
    TrimmedOnce(Trace(s));
    var sub, text, r := Substituted(LowerAll(s)), Trace(s).text, Normed(s).text;
    assert r <= text;
    if r == [] {
      assert text == [] || text == [' '];
      assert text == [];
      assert [' '] + text == [' '];
      StripNothing();
    } else {
      SpaceIsSpace();
      assert r[0] == text[0] && !IsSpace(r[0]);
      assert r[|r| - 1] == text[|r| - 1] && !IsSpace(r[|r| - 1]);
      var front, back := if sub == text then [] else [' '], if text == r then [] else [' '];
      assert text == r + back && sub == front + text;
      StripTidy(front, r, back);
    }
  }

  // ---- the map ------------------------------------------------------------------------------------

  /** `text` is what tracing `s` had given when it stood before index `i`, up to one space still to come. */
  ghost predicate CameFrom(o: Traced, s: string, q: nat)
    requires q < |o.text| == |o.at|
  {
    && (o.at[q] < 0 <==> o.text[q] == ' ')
    && (o.at[q] >= 0 ==>
          && o.at[q] < |s|
          && o.text[q] == Lower(s[o.at[q]])[0]
          && Trace(s[..o.at[q]]).text == o.text[..q]
          && Trace(s[..o.at[q] + 1]).text in {o.text[..q + 1], o.text[..q + 1] + [' ']})
  }

  lemma {:induction false} FeedGrows(o: Traced, c: char, i: int)
    ensures o.text <= Feed(o, c, i).text && o.at <= Feed(o, c, i).at
  {
  }

  lemma {:induction false} FeedLetter(o: Traced, c: char, i: int)
    requires |o.text| == |o.at| && Alnum(Lower(c)[0])
    ensures var f := Feed(o, c, i); var q := |o.text|;
      |f.text| == |f.at| > q && f.at[q] == i && f.text[q] == Lower(c)[0]
      && f.text in {f.text[..q + 1], f.text[..q + 1] + [' ']}
  {
    var low, f, q := Lower(c), Feed(o, c, i), |o.text|;
    var first := Step(o, low[0], i);
    if |low| == 1 {
      assert f.text == f.text[..q + 1];
    } else {
      assert f.text[..q + 1] == first.text;
    }
  }

  lemma {:induction false} FeedSeparator(o: Traced, c: char, i: int, q: nat)
    requires |o.text| == |o.at| <= q < |Feed(o, c, i).text|
    requires q > |o.text| || !Alnum(Lower(c)[0])
    ensures var f := Feed(o, c, i);
      |f.text| == |f.at| && f.at[q] == -1 && f.text[q] == ' '
  {
  }

  /** Every character of the traced text came from where the map says. */
  lemma {:induction false} MapIsTrue(s: string, q: nat)
    requires q < |Trace(s).text| == |Trace(s).at|
    ensures CameFrom(Trace(s), s, q)
    decreases |s|
  {
    hide Trace, Lower;
    TraceNothing();
    var front, c := s[..|s| - 1], s[|s| - 1];
    assert s == front + [c];
    TraceSnoc(front, c);
    SameLength(front);
    var before := Trace(front);
    FeedGrows(before, c, |front|);
    if q < |before.text| {
      MapIsTrue(front, q);
      OlderCameFrom(front, c, q);
    } else {
      assert before.text == Trace(s).text[..|before.text|];
      if |before.text| == q && Alnum(Lower(c)[0]) {
        assert s[..|front| + 1] == s && s[..|front|] == front;
        assert Trace(s).text[..q] == before.text;
        FeedLetter(before, c, |front|);
      } else {
        FeedSeparator(before, c, |front|, q);
      }
    }
  }

  lemma {:induction false} OlderCameFrom(front: string, c: char, q: nat)
    requires q < |Trace(front).text| == |Trace(front).at| && CameFrom(Trace(front), front, q)
    requires |Trace(front + [c]).text| == |Trace(front + [c]).at|
    ensures q < |Trace(front + [c]).text| && CameFrom(Trace(front + [c]), front + [c], q)
  {
    hide Trace, Lower;
    TraceSnoc(front, c);
    FeedGrows(Trace(front), c, |front|);
    var o, p, s := Trace(front), Trace(front + [c]), front + [c];
    assert p.text[q] == o.text[q] && p.at[q] == o.at[q];
    assert p.text[..q] == o.text[..q] && p.text[..q + 1] == o.text[..q + 1];
    if o.at[q] >= 0 {
      assert s[..o.at[q]] == front[..o.at[q]] && s[..o.at[q] + 1] == front[..o.at[q] + 1];
    }
  }

  /** Reading further never takes anything back. */
  lemma {:induction false} TraceGrows(s: string, i: nat)
    requires i <= |s|
    ensures Trace(s[..i]).text <= Trace(s).text
    decreases |s|
  {
    if i == |s| {
      assert s[..i] == s;
    } else {
      hide Trace;
      var front, c := s[..|s| - 1], s[|s| - 1];
      assert s == front + [c];
      TraceGrows(front, i);
      assert front[..i] == s[..i];
      TraceSnoc(front, c);
      FeedGrows(Trace(front), c, |front|);
    }
  }

  /** The map is increasing: characters keep their order, and two of them never share a source. */
  lemma {:induction false} MapIncreases(s: string, p: nat, q: nat)
    requires p < q < |Trace(s).text| == |Trace(s).at| && Trace(s).at[p] >= 0 && Trace(s).at[q] >= 0
    ensures Trace(s).at[p] < Trace(s).at[q]
  {
    hide Trace;
    var at := Trace(s).at;
    MapIsTrue(s, p);
    MapIsTrue(s, q);
    if at[q] <= at[p] {
      assert s[..at[p]][..at[q]] == s[..at[q]];
      TraceGrows(s[..at[p]], at[q]);
    }
  }

  lemma {:induction false} LetterTraced(s: string, i: nat) returns (q: nat)
    requires i < |s| && Alnum(Lower(s[i])[0])
    ensures q < |Trace(s).text| == |Trace(s).at| && Trace(s).at[q] == i && Trace(s).text[q] == Lower(s[i])[0]
    decreases |s|
  {
    hide Trace, Lower, Alnum;
    var front, c := s[..|s| - 1], s[|s| - 1];
    assert s == front + [c];
    TraceSnoc(front, c);
    SameLength(front);
    SameLength(s);
    if i < |front| {
      q := LetterTraced(front, i);
      FeedGrows(Trace(front), c, |front|);
    } else {
      q := |Trace(front).text|;
      FeedLetter(Trace(front), c, |front|);
    }
  }

  /** No letter and no digit is dropped: each ASCII one stands, in lower case, where the map points back to it. */
  lemma {:induction false} LetterIsKept(s: string, i: nat) returns (q: nat)
    requires i < |s| && ('0' <= s[i] <= '9' || 'a' <= s[i] <= 'z' || 'A' <= s[i] <= 'Z')
    ensures q < |NormText(s)| && Normed(s).text == NormText(s) && Normed(s).at[q] == i
    ensures NormText(s)[q] == if 'A' <= s[i] <= 'Z' then (s[i] as int + 32) as char else s[i]
  {
    hide Trace, NormText, TrimEnd;
    SameLength(s);
    q := LetterTraced(s, i);
    NormAgrees(s);
    NormIsTrace(s);
    assert Normed(s).at <= Trace(s).at;
    assert Trace(s).text[q] != ' ';
  }

  // ---- cutting ------------------------------------------------------------------------------------

  /** Nothing in front, or a separator: what comes next is normalised as if it stood alone. */
  predicate AtWord(text: string) {
    text == [] || text[|text| - 1] == ' '
  }

  lemma {:induction false} StepAppend(a: string, b: Traced, c: char, i: int, j: int, at: seq<int>)
    requires AtWord(a)
    ensures Step(Traced(a + b.text, at), c, i).text == a + Step(b, c, j).text
  {
  }

  /** Normalised text is put together piece by piece, where a piece starts after a separator. */
  lemma {:induction false} TraceAppend(a: string, b: string)
    requires AtWord(Trace(a).text)
    ensures Trace(a + b).text == Trace(a).text + Trace(b).text
    decreases |b|
  {
    hide Trace, Step;
    if b == [] {
      assert a + b == a;
      TraceNothing();
    } else {
      var front, c := b[..|b| - 1], b[|b| - 1];
      assert b == front + [c] && a + b == (a + front) + [c];
      TraceAppend(a, front);
      TraceSnoc(front, c);
      TraceSnoc(a + front, c);
      var x, y, low := Trace(a + front), Trace(front), Lower(c);
      StepAppend(Trace(a).text, y, low[0], |a + front|, |front|, x.at);
      if |low| == 2 {
        var x', y' := Step(x, low[0], |a + front|), Step(y, low[0], |front|);
        StepAppend(Trace(a).text, y', low[1], |a + front|, |front|, x'.at);
      }
    }
  }

  lemma {:induction false} SpanSource(s: string, p: nat, end: nat)
    requires p < end <= |Normed(s).text| && Normed(s).text[p] != ' ' && Normed(s).text[end - 1] != ' '
    ensures var text, at := Normed(s).text, Normed(s).at;
      && 0 <= at[p] <= at[end - 1] < |s|
      && Trace(s[..at[p]]).text == text[..p]
      && Trace(s[..at[end - 1] + 1]).text in {text[..end], text[..end] + [' ']}
  {
    hide Trace, TrimEnd;
    SameLength(s);
    var o, text, at := Trace(s), Normed(s).text, Normed(s).at;
    assert o.text[..|text|] == text && o.at[..|at|] == at;
    assert o.text[p] == text[p] && o.text[end - 1] == text[end - 1];
    assert o.at[p] == at[p] && o.at[end - 1] == at[end - 1];
    assert o.text[..p] == text[..p] && o.text[..end] == text[..end];
    MapIsTrue(s, p);
    MapIsTrue(s, end - 1);
    if p < end - 1 {
      MapIncreases(s, p, end - 1);
    }
  }

  /** A stretch of whole normalised words is what normalising the stretch it came from gives. */
  lemma {:induction false} SpanNormalises(s: string, p: nat, end: nat)
    requires p < end <= |Normed(s).text| && Normed(s).text[p] != ' ' && Normed(s).text[end - 1] != ' '
    requires p == 0 || Normed(s).text[p - 1] == ' '
    ensures var at := Normed(s).at;
      0 <= at[p] <= at[end - 1] < |s| && NormText(s[at[p]..at[end - 1] + 1]) == Normed(s).text[p..end]
  {
    hide Trace, TrimEnd, NormText, Normed;
    SpanSource(s, p, end);
    var text, at := Normed(s).text, Normed(s).at;
    var a, b, word := s[..at[p]], s[at[p]..at[end - 1] + 1], text[p..end];
    assert s[..at[end - 1] + 1] == a + b;
    assert AtWord(Trace(a).text);
    TraceAppend(a, b);
    var piece := Trace(b).text;
    assert text[..end] == text[..p] + word;
    assert text[..end] + [' '] == text[..p] + (word + [' ']);
    SameRest(text[..p], piece, if text[..p] + piece == text[..end] then word else word + [' ']);
    TrimPiece(b, word);
    NormAgrees(b);
  }

  lemma {:induction false} SameRest(a: string, x: string, y: string)
    requires a + x == a + y
    ensures x == y
  {
    assert x == (a + x)[|a|..] && y == (a + y)[|a|..];
  }

  lemma {:induction false} TrimPiece(s: string, word: string)
    requires Trace(s).text == word || Trace(s).text == word + [' ']
    requires word != [] && word[|word| - 1] != ' '
    ensures Normed(s).text == word
  {
    hide Trace;
    SameLength(s);
    TraceIsTidy(s);
    TrimmedOnce(Trace(s));
  }

  /** A normalised text is traced text without the space it may end in. */
  lemma {:induction false} NormIsTrace(s: string)
    ensures Trace(s).text == NormText(s) || Trace(s).text == NormText(s) + [' ']
    ensures NormText(s) == [] || NormText(s)[|NormText(s)| - 1] != ' '
    ensures NormText(s) == [] || NormText(s)[0] != ' '
    ensures NormText(s) == [] ==> Trace(s).text == []
  {
    hide Trace, NormText, TrimEnd;
    SameLength(s);
    TraceIsTidy(s);
    TrimmedOnce(Trace(s));
    NormAgrees(s);
  }
}
