/**
 * Parsing the outline reply of the streaming path into exactly `n` content
 * titles: split into lines, trim each, drop blank ones, keep the first `n`,
 * and pad a short list with placeholder titles `"Point k"`.
 */
module Outline {
  import opened Text

  /** A usable content title: not empty, not surrounded by whitespace, and
      on one line. */
  predicate CleanTitle(t: string) {
    t != [] && Trimmed(t) && '\n' !in t
  }

  const PointPrefix: string := "Point "

  /** The placeholder for the content title at 1-based position `k`. */
  function PointTitle(k: nat): (r: string)
    ensures CleanTitle(r)
  {
    var d := NatToDecimal(k);
    var r := PointPrefix + d;
    assert r[0] == 'P';
    assert r[|r| - 1] == d[|d| - 1] && IsDigit(d[|d| - 1]);
    assert '\n' !in r by {
      forall i | 0 <= i < |r|
        ensures r[i] != '\n'
      {
        if i >= |PointPrefix| { assert r[i] == d[i - |PointPrefix|]; }
      }
    }
    r
  }

  /** Placeholders differ for different positions. */
  lemma PointTitleInjective(j: nat, k: nat)
    requires PointTitle(j) == PointTitle(k)
    ensures j == k
  {
    assert NatToDecimal(j) == PointTitle(j)[|PointPrefix|..];
    assert NatToDecimal(k) == PointTitle(k)[|PointPrefix|..];
  }

  /** A stripped single line is blank or a clean title. */
  lemma StrippedLine(line: string)
    requires '\n' !in line
    ensures Strip(line) == [] || CleanTitle(Strip(line))
  {
    StripKeepsOut(line, '\n');
  }

  /** What one line contributes: its stripped text, unless that is blank. */
  function Kept(line: string): (r: seq<string>)
    ensures |r| <= 1
  {
    var t := Strip(line);
    if t == [] then [] else [t]
  }

  /** The trimmed lines that are not blank, in order. */
  function NonBlank(lines: seq<string>): (r: seq<string>)
    ensures |r| <= |lines|
  {
    if lines == [] then [] else Kept(lines[0]) + NonBlank(lines[1..])
  }

  /** Lines without line breaks give clean titles only. */
  lemma {:induction false} NonBlankClean(lines: seq<string>)
    requires forall i | 0 <= i < |lines| :: '\n' !in lines[i]
    ensures forall i | 0 <= i < |NonBlank(lines)| :: CleanTitle(NonBlank(lines)[i])
  {
    if lines != [] {
      var tail := lines[1..];
      assert forall i | 0 <= i < |tail| :: tail[i] == lines[i + 1];
      NonBlankClean(tail);
      StrippedLine(lines[0]);
      CleanConcat(Kept(lines[0]), NonBlank(tail));
    }
  }

  lemma CleanConcat(a: seq<string>, b: seq<string>)
    requires forall i | 0 <= i < |a| :: CleanTitle(a[i])
    requires forall i | 0 <= i < |b| :: CleanTitle(b[i])
    ensures forall i | 0 <= i < |a + b| :: CleanTitle((a + b)[i])
  {
    forall i | 0 <= i < |a + b|
      ensures CleanTitle((a + b)[i])
    {
      if i >= |a| { assert (a + b)[i] == b[i - |a|]; }
    }
  }

  /** The filter one line at a time from the other end: a further line adds
      its stripped text at the end when that is not blank, and nothing
      otherwise. */
  lemma {:induction false} NonBlankAppend(lines: seq<string>, line: string)
    ensures NonBlank(lines + [line]) == NonBlank(lines) + Kept(line)
    decreases |lines|
  {
    var all := lines + [line];
    if lines == [] {
      assert all == [line] && all[1..] == [];
    } else {
      assert all[0] == lines[0] && all[1..] == lines[1..] + [line];
      NonBlankAppend(lines[1..], line);
      var k, rest, last := Kept(lines[0]), NonBlank(lines[1..]), Kept(line);
      assert NonBlank(all) == k + (rest + last);
      assert k + (rest + last) == (k + rest) + last;
      assert NonBlank(lines) == k + rest;
    }
  }

  /** A clean title is kept as it is. */
  lemma KeptClean(t: string)
    requires CleanTitle(t)
    ensures Kept(t) == [t]
  {
    StripTrimmed(t);
  }

  /** Lines that are already clean titles are kept as they are. */
  lemma {:induction false} NonBlankOfClean(ts: seq<string>)
    requires forall i | 0 <= i < |ts| :: CleanTitle(ts[i])
    ensures NonBlank(ts) == ts
    decreases |ts|
  {
    if ts != [] {
      var tail := ts[1..];
      assert forall i | 0 <= i < |tail| :: tail[i] == ts[i + 1];
      NonBlankOfClean(tail);
      KeptClean(ts[0]);
      assert ts == [ts[0]] + tail;
    }
  }

  /** `xs[:n]` with Python's slice semantics: a negative bound counts from
      the end. */
  function Take(xs: seq<string>, n: int): (r: seq<string>)
    ensures n >= 0 ==> r == xs[..if n <= |xs| then n else |xs|]
    ensures n < 0 ==> r == xs[..if |xs| + n >= 0 then |xs| + n else 0]
  {
    if n >= 0 then (if n <= |xs| then xs[..n] else xs)
    else if |xs| + n >= 0 then xs[..|xs| + n] else []
  }

  /** Appends placeholders until there are `n` titles; the titles already
      there are kept. */
  function Pad(titles: seq<string>, n: int): (r: seq<string>)
    ensures |r| == if n > |titles| then n else |titles|
    ensures r[..|titles|] == titles
    ensures forall k | |titles| <= k < |r| :: r[k] == PointTitle(k + 1)
  {
    if |titles| >= n then titles
    else titles + seq(n - |titles|, j requires 0 <= j < n - |titles| => PointTitle(|titles| + j + 1))
  }

  /** The non-blank trimmed lines of an outline reply; each is a clean
      title. */
  function OutlineLines(text: string): (r: seq<string>)
    ensures forall i | 0 <= i < |r| :: CleanTitle(r[i])
  {
    var lines := Lines(Strip(text));
    NonBlankClean(lines);
    NonBlank(lines)
  }

  /** `n` titles from a list of lines when `n >= 0`: the first lines in
      order, then placeholders for the positions the lines do not reach. */
  function Titles(lines: seq<string>, n: int): (r: seq<string>)
    ensures n >= 0 ==> |r| == n
    ensures forall k | 0 <= k < |r| && k < |lines| && (n < 0 || k < n) :: r[k] == lines[k]
    ensures forall k | |lines| <= k < |r| :: r[k] == PointTitle(k + 1)
  {
    var kept := Take(lines, n);
    var r := Pad(kept, n);
    assert forall k | 0 <= k < |kept| :: r[k] == r[..|kept|][k] == kept[k] == lines[k];
    r
  }

  /** The content titles of the streaming path. For a count `n >= 0` there
      are exactly `n` of them: the first `min(m, n)` are the `m` non-blank
      trimmed lines in order, and the title at 1-based position `k > m` is
      `"Point k"`. */
  function ParseOutline(text: string, n: int): (r: seq<string>)
    ensures n >= 0 ==> |r| == n
    ensures var lines := OutlineLines(text);
            forall k | 0 <= k < |r| && k < |lines| && (n < 0 || k < n) :: r[k] == lines[k]
    ensures var lines := OutlineLines(text);
            forall k | |lines| <= k < |r| :: r[k] == PointTitle(k + 1)
  {
    Titles(OutlineLines(text), n)
  }

  /** No parsed title is empty, surrounded by whitespace, or holds a line
      break. */
  lemma ParseOutlineClean(text: string, n: int)
    ensures forall k | 0 <= k < |ParseOutline(text, n)| :: CleanTitle(ParseOutline(text, n)[k])
  {
    var lines := OutlineLines(text);
    var r := ParseOutline(text, n);
    forall k | 0 <= k < |r|
      ensures CleanTitle(r[k])
    {
      if k < |lines| {
        assert r[k] == lines[k];
      } else {
        assert r[k] == PointTitle(k + 1);
      }
    }
  }

  /** An outline reply that lists clean titles one per line parses back to
      exactly those titles when as many are asked for. */
  lemma ParseOutlineOfJoin(ts: seq<string>)
    requires forall i | 0 <= i < |ts| :: CleanTitle(ts[i])
    ensures ParseOutline(Join(ts, '\n'), |ts|) == ts
  {
    OutlineLinesOfJoin(ts);
    TitlesOfExactCount(ts);
  }

  /** The reply's lines are the titles. */
  lemma OutlineLinesOfJoin(ts: seq<string>)
    requires forall i | 0 <= i < |ts| :: CleanTitle(ts[i])
    ensures OutlineLines(Join(ts, '\n')) == ts
  {
    JoinedTitlesStripped(ts);
    JoinedTitlesLines(ts);
    NonBlankOfClean(ts);
  }

  lemma JoinedTitlesStripped(ts: seq<string>)
    requires forall i | 0 <= i < |ts| :: CleanTitle(ts[i])
    ensures Strip(Join(ts, '\n')) == Join(ts, '\n')
  {
    JoinedTitlesTrimmed(ts);
    StripTrimmed(Join(ts, '\n'));
  }

  lemma JoinedTitlesLines(ts: seq<string>)
    requires forall i | 0 <= i < |ts| :: CleanTitle(ts[i])
    ensures Lines(Join(ts, '\n')) == ts
  {
    assert forall i | 0 <= i < |ts| :: '\n' !in ts[i];
    assert ts == [] || ts[|ts| - 1] != [];
    LinesOfJoin(ts);
  }

  /** Exactly as many lines as asked for are kept whole, with no
      placeholder. */
  lemma TitlesOfExactCount(lines: seq<string>)
    ensures Titles(lines, |lines|) == lines
  {
    var r := Titles(lines, |lines|);
    assert forall k | 0 <= k < |r| :: r[k] == lines[k];
  }

  /** Clean titles joined by line breaks form a trimmed text. */
  lemma JoinedTitlesTrimmed(ts: seq<string>)
    requires forall i | 0 <= i < |ts| :: CleanTitle(ts[i])
    ensures Trimmed(Join(ts, '\n'))
  {
    if ts != [] {
      var text := Join(ts, '\n');
      var first, last := ts[0], ts[|ts| - 1];
      JoinStartsWithFirst(ts, '\n');
      JoinEndsWithLast(ts, '\n');
      assert text[0] == text[..|first|][0] == first[0];
      assert text[|text| - 1] == text[|text| - |last|..][|last| - 1] == last[|last| - 1];
    }
  }
}
