/** The string operations the scripts share: splitting into lines, joining, stripping. */
module Text {

  const NL: char := '\n'

  /** The characters `str.strip` removes. */
  predicate IsSpace(c: char) {
    || '\t' <= c <= '\r' || '\U{1c}' <= c <= ' ' || c == '\U{85}' || c == '\U{a0}' || c == '\U{1680}'
    || '\U{2000}' <= c <= '\U{200a}' || c == '\U{2028}' || c == '\U{2029}' || c == '\U{202f}' || c == '\U{205f}'
    || c == '\U{3000}'
  }

  function LStrip(s: string): string {
    if s != [] && IsSpace(s[0]) then LStrip(s[1..]) else s
  }

  function RStrip(s: string): string {
    if s != [] && IsSpace(s[|s| - 1]) then RStrip(s[..|s| - 1]) else s
  }

  function Strip(s: string): string {
    RStrip(LStrip(s))
  }

  /** Stripping on the left leaves an end of the text that starts with no space. */
  lemma {:induction false} LStripIs(s: string)
    ensures |LStrip(s)| <= |s| && LStrip(s) == s[|s| - |LStrip(s)|..]
    ensures LStrip(s) == [] || !IsSpace(LStrip(s)[0])
  {
    hide IsSpace;
    if s != [] && IsSpace(s[0]) {
      LStripIs(s[1..]);
    }
  }

  /** Stripping on the right leaves a beginning that ends with no space. */
  lemma {:induction false} RStripIs(s: string)
    ensures RStrip(s) <= s
    ensures RStrip(s) == [] || !IsSpace(RStrip(s)[|RStrip(s)| - 1])
    ensures forall i :: |RStrip(s)| <= i < |s| ==> IsSpace(s[i])
  {
    hide IsSpace;
    if s != [] && IsSpace(s[|s| - 1]) {
      RStripIs(s[..|s| - 1]);
    }
  }

  lemma {:induction false} StripShortens(s: string)
    ensures |Strip(s)| <= |s|
  {
    LStripIs(s);
    RStripIs(LStrip(s));
  }

  predicate Blank(s: string) {
    Strip(s) == []
  }

  /** The lines of `s`: at least one, none with a line feed in it. */
  function Split(s: string): (lines: seq<string>)
    ensures |lines| > 0
  {
    if s == [] then [[]]
    else
      var rest := Split(s[1..]);
      if s[0] == NL then [[]] + rest else [[s[0]] + rest[0]] + rest[1..]
  }

  function Join(lines: seq<string>): (s: string) {
    if lines == [] then []
    else if |lines| == 1 then lines[0]
    else lines[0] + [NL] + Join(lines[1..])
  }

  ghost predicate OneLine(s: string) {
    NL !in s
  }

  ghost predicate AllOneLine(lines: seq<string>) {
    forall i :: 0 <= i < |lines| ==> OneLine(lines[i])
  }

  lemma {:induction false} SplitGivesLines(s: string)
    ensures AllOneLine(Split(s))
  {
    if s != [] {
      SplitGivesLines(s[1..]);
    }
  }

  lemma {:induction false} JoinFirst(c: char, line: string, rest: seq<string>)
    ensures Join([[c] + line] + rest) == [c] + Join([line] + rest)
  {
    if rest == [] {
      assert [[c] + line] + rest == [[c] + line] && [line] + rest == [line];
    } else {
      assert ([[c] + line] + rest)[1..] == rest && ([line] + rest)[1..] == rest;
      assert [c] + (line + [NL] + Join(rest)) == ([c] + line) + [NL] + Join(rest);
    }
  }

  lemma {:induction false} JoinEmptyFirst(rest: seq<string>)
    requires rest != []
    ensures Join([[]] + rest) == [NL] + Join(rest)
  {
    assert ([[]] + rest)[1..] == rest;
  }

  lemma {:induction false} SplitFirst(c: char, s: string)
    ensures Split([c] + s) == if c == NL then [[]] + Split(s) else [[c] + Split(s)[0]] + Split(s)[1..]
  {
    assert ([c] + s)[1..] == s;
  }

  lemma {:induction false} SplitNothing()
    ensures Split(Join([[]])) == [[]]
  {
  }

  /** Splitting what was joined gives the lines back. */
  lemma {:induction false} SplitJoin(lines: seq<string>)
    requires lines != [] && AllOneLine(lines)
    ensures Split(Join(lines)) == lines
    decreases |lines|, |lines[0]|
  {
    hide Split, Join;
    var rest := lines[1..];
    assert lines == [lines[0]] + rest;
    if lines[0] != [] {
      var c, line := lines[0][0], lines[0][1..];
      assert lines[0] == [c] + line && OneLine(lines[0]);
      JoinFirst(c, line, rest);
      SplitJoin([line] + rest);
      SplitFirst(c, Join([line] + rest));
      assert ([line] + rest)[1..] == rest;
    } else if rest != [] {
      JoinEmptyFirst(rest);
      SplitJoin(rest);
      SplitFirst(NL, Join(rest));
    } else {
      assert lines == [[]];
      SplitNothing();
    }
  }

  /** And joining what was split gives the text back. */
  lemma {:induction false} JoinSplit(s: string)
    ensures Join(Split(s)) == s
  {
    if s != [] {
      hide Join;
      JoinSplit(s[1..]);
      var rest := Split(s[1..]);
      assert s == [s[0]] + s[1..];
      if s[0] == NL {
        JoinEmptyFirst(rest);
      } else {
        JoinFirst(s[0], rest[0], rest[1..]);
        assert [rest[0]] + rest[1..] == rest;
      }
    } else {
      JoinNothing();
    }
  }

  lemma {:induction false} JoinNothing()
    ensures Join([[]]) == []
  {
  }

  /** The length of a joined list: its lines and one line feed between any two. */
  function Size(lines: seq<string>): nat {
    if lines == [] then 0 else Size(lines[..|lines| - 1]) + |lines[|lines| - 1]| + 1
  }

  lemma {:induction false} JoinSnoc(lines: seq<string>, line: string)
    requires lines != []
    ensures Join(lines + [line]) == Join(lines) + [NL] + line
  {
    if |lines| > 1 {
      JoinSnoc(lines[1..], line);
      assert (lines + [line])[1..] == lines[1..] + [line];
      assert lines[0] + [NL] + (Join(lines[1..]) + [NL] + line) == (lines[0] + [NL] + Join(lines[1..])) + [NL] + line;
    }
  }

  lemma {:induction false} JoinSize(lines: seq<string>)
    requires lines != []
    ensures |Join(lines)| + 1 == Size(lines)
  {
    if |lines| > 1 {
      JoinSize(lines[..|lines| - 1]);
      JoinSnoc(lines[..|lines| - 1], lines[|lines| - 1]);
      assert lines == lines[..|lines| - 1] + [lines[|lines| - 1]];
    }
  }

  // ---- finding --------------------------------------------------------------------------------

  predicate StandsAt(text: string, part: string, p: int) {
    0 <= p && p + |part| <= |text| && text[p..p + |part|] == part
  }

  /** `str.find`: the first place of `part` from `start` on, or -1. */
  method Find(text: string, part: string, start: nat) returns (p: int)
    ensures -1 <= p <= |text| && (p >= 0 ==> start <= p && StandsAt(text, part, p))
    ensures forall x :: start <= x && (p < 0 || x < p) ==> !StandsAt(text, part, x)
  {
    var q := start;
    while q + |part| <= |text|
      invariant start <= q
      invariant forall x :: start <= x < q ==> !StandsAt(text, part, x)
    {
      if text[q..q + |part|] == part {
        return q;
      }
      q := q + 1;
    }
    p := -1;
  }

  // ---- decimal numbers ------------------------------------------------------------------------

  function Digit(n: nat): char
    requires n < 10
  {
    "0123456789"[n]
  }

  function Decimal(n: nat): string {
    if n < 10 then [Digit(n)] else Decimal(n / 10) + [Digit(n % 10)]
  }

  lemma {:induction false} DecimalLength(n: nat)
    ensures |Decimal(n)| >= 1 && (|Decimal(n)| == 1 <==> n < 10)
  {
    if n >= 10 {
      DecimalLength(n / 10);
    }
  }

  lemma {:induction false} DecimalInjective(m: nat, n: nat)
    requires Decimal(m) == Decimal(n)
    ensures m == n
  {
    var s, t := Decimal(m), Decimal(n);
    assert s[|s| - 1] == Digit(m % 10) && t[|t| - 1] == Digit(n % 10);
    if m >= 10 && n >= 10 {
      assert s[..|s| - 1] == Decimal(m / 10) && t[..|t| - 1] == Decimal(n / 10);
      DecimalInjective(m / 10, n / 10);
    } else {
      DecimalLength(m);
      DecimalLength(n);
    }
  }

  lemma {:induction false} DecimalIsDigits(n: nat)
    ensures forall i :: 0 <= i < |Decimal(n)| ==> '0' <= Decimal(n)[i] <= '9'
  {
    if n >= 10 {
      DecimalIsDigits(n / 10);
    }
  }
}
