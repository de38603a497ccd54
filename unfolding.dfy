/** The first step of `parse`: `replace(/\n\s{1}/g, '')` removes folding,
    then `split(/\r\n(?=\S)|\r(?=\S)|\n(?=\S)/)` cuts the text into logical
    lines. */
module Unfolding {
  import opened Text

  /** True when no `\n` in `s` is directly followed by whitespace. */
  ghost predicate NoFoldMarker(s: string) {
    forall i :: 0 <= i < |s| - 1 && s[i] == '\n' ==> !IsSpace(s[i + 1])
  }

  /** `replace(/\n\s{1}/g, '')`: scanning left to right, every `\n`
      followed by one whitespace character is deleted together with that
      character. The whitespace may itself be `\n` or `\r`. */
  function Unfold(s: string): (r: string)
    ensures |r| <= |s|
    decreases |s|
  {
    if |s| == 0 then ""
    else if |s| >= 2 && s[0] == '\n' && IsSpace(s[1]) then Unfold(s[2..])
    else [s[0]] + Unfold(s[1..])
  }

  lemma UnfoldExample()
    ensures Unfold("A:1\n 2") == "A:12"
  {
    assert Unfold("A:1\n 2") == "A:1" + Unfold("\n 2") by {
      assert "A:1\n 2"[1..] == ":1\n 2";
      assert ":1\n 2"[1..] == "1\n 2";
      assert "1\n 2"[1..] == "\n 2";
    }
    assert "\n 2"[2..] == "2";
  }

  /** A text that does not start with `\n` keeps its first character. */
  lemma UnfoldKeepsHead(s: string)
    requires |s| > 0 && s[0] != '\n'
    ensures |Unfold(s)| > 0 && Unfold(s)[0] == s[0]
  {
  }

  /** No fold marker survives unfolding. */
  lemma {:induction false} UnfoldRemovesMarkers(s: string)
    ensures NoFoldMarker(Unfold(s))
    decreases |s|
  {
    if |s| == 0 {
    } else if |s| >= 2 && s[0] == '\n' && IsSpace(s[1]) {
      UnfoldRemovesMarkers(s[2..]);
    } else {
      var rest := Unfold(s[1..]);
      UnfoldRemovesMarkers(s[1..]);
      if s[0] == '\n' && |s| >= 2 {
        UnfoldKeepsHead(s[1..]);
      }
      assert forall i :: 1 <= i < |rest| ==> ([s[0]] + rest)[i] == rest[i - 1];
    }
  }

  /** A fold marker, `\n` and one whitespace character, starts at `i`. */
  ghost predicate MarkerAt(s: string, i: int) {
    0 <= i && i + 1 < |s| && s[i] == '\n' && IsSpace(s[i + 1])
  }

  /** The scan deletes the leftmost marker, keeps everything before it and
      resumes after it; together with `UnfoldFixpoint` this says that the
      markers are the only characters deleted. */
  lemma {:induction false} UnfoldLeftmost(s: string, i: nat)
    requires MarkerAt(s, i) && forall j :: 0 <= j < i ==> !MarkerAt(s, j)
    ensures Unfold(s) == s[..i] + Unfold(s[i + 2..])
    decreases i
  {
    if i > 0 {
      assert !MarkerAt(s, 0);
      var t := s[1..];
      assert MarkerAt(t, i - 1);
      forall j | 0 <= j < i - 1
        ensures !MarkerAt(t, j)
      {
        assert !MarkerAt(s, j + 1);
      }
      UnfoldLeftmost(t, i - 1);
      assert t[i + 1..] == s[i + 2..];
      assert [s[0]] + t[..i - 1] == s[..i];
    }
  }

  /** Unfolding changes exactly the texts that hold a fold marker. */
  lemma {:induction false} UnfoldFixpoint(s: string)
    ensures Unfold(s) == s <==> NoFoldMarker(s)
    decreases |s|
  {
    if NoFoldMarker(s) {
      if |s| > 0 {
        assert NoFoldMarker(s[1..]) by {
          forall i | 0 <= i < |s[1..]| - 1 && s[1..][i] == '\n'
            ensures !IsSpace(s[1..][i + 1])
          {
            assert s[i + 1] == '\n';
          }
        }
        UnfoldFixpoint(s[1..]);
        assert s == [s[0]] + s[1..];
      }
    } else {
      UnfoldRemovesMarkers(s);
    }
  }

  /** Unfolding twice is unfolding once. */
  lemma UnfoldIdempotent(s: string)
    ensures Unfold(Unfold(s)) == Unfold(s)
  {
    UnfoldRemovesMarkers(s);
    UnfoldFixpoint(Unfold(s));
  }

  /** The length of the line break that the split pattern matches at
      position `i`, or 0 when it matches nothing there. The alternatives are
      tried in the pattern's order; each needs a non-whitespace character
      after it. */
  function BreakLen(s: string, i: nat): (k: nat)
    requires i < |s|
    ensures k <= 2 && i + k < |s|
  {
    if s[i] == '\r' && i + 2 < |s| && s[i + 1] == '\n' && !IsSpace(s[i + 2]) then 2
    else if s[i] == '\r' && i + 1 < |s| && !IsSpace(s[i + 1]) then 1
    else if s[i] == '\n' && i + 1 < |s| && !IsSpace(s[i + 1]) then 1
    else 0
  }

  /** The split: the lines and, between each two of them, the line break
      that separated them. A break is taken at the leftmost position where
      the pattern matches. */
  function SplitLines(s: string): (r: (seq<string>, seq<string>))
    ensures |r.0| == |r.1| + 1
    decreases |s|
  {
    if |s| == 0 then ([""], [])
    else if BreakLen(s, 0) > 0 then
      var k := BreakLen(s, 0);
      var rest := SplitLines(s[k..]);
      ([""] + rest.0, [s[..k]] + rest.1)
    else
      var rest := SplitLines(s[1..]);
      ([[s[0]] + rest.0[0]] + rest.0[1..], rest.1)
  }

  /** Lines put back together with the breaks between them. */
  function JoinLines(lines: seq<string>, breaks: seq<string>): string
    requires |lines| == |breaks| + 1
    decreases |breaks|
  {
    if |breaks| == 0 then lines[0]
    else lines[0] + breaks[0] + JoinLines(lines[1..], breaks[1..])
  }

  /** The logical lines of a raw vCard text. */
  function LogicalLines(data: string): seq<string> {
    SplitLines(Unfold(data)).0
  }

  /** Joining after a leading line and break. */
  lemma JoinLinesCons(line: string, lines: seq<string>, brk: string, breaks: seq<string>)
    requires |lines| == |breaks| + 1
    ensures JoinLines([line] + lines, [brk] + breaks) == line + brk + JoinLines(lines, breaks)
  {
    assert ([line] + lines)[1..] == lines && ([brk] + breaks)[1..] == breaks;
  }

  /** Joining after a character is put in front of the first line. */
  lemma JoinLinesPrepend(c: char, lines: seq<string>, breaks: seq<string>)
    requires |lines| == |breaks| + 1
    ensures JoinLines([[c] + lines[0]] + lines[1..], breaks) == [c] + JoinLines(lines, breaks)
  {
    var lines' := [[c] + lines[0]] + lines[1..];
    if |breaks| > 0 {
      assert lines'[1..] == lines[1..];
    }
  }

  /** Joining the lines with their breaks restores the text. */
  lemma {:induction false} SplitLinesJoin(s: string)
    ensures JoinLines(SplitLines(s).0, SplitLines(s).1) == s
    decreases |s|
  {
    if |s| == 0 {
    } else if BreakLen(s, 0) > 0 {
      var k := BreakLen(s, 0);
      var rest := SplitLines(s[k..]);
      SplitLinesJoin(s[k..]);
      assert SplitLines(s) == ([""] + rest.0, [s[..k]] + rest.1);
      JoinLinesCons("", rest.0, s[..k], rest.1);
      assert s == s[..k] + s[k..];
    } else {
      var rest := SplitLines(s[1..]);
      SplitLinesJoin(s[1..]);
      assert SplitLines(s) == ([[s[0]] + rest.0[0]] + rest.0[1..], rest.1);
      JoinLinesPrepend(s[0], rest.0, rest.1);
      assert s == [s[0]] + s[1..];
    }
  }

  /** Every break is `\r\n`, `\r` or `\n`, and every line after the first
      starts with a non-whitespace character. */
  ghost predicate LineShaped(lines: seq<string>, breaks: seq<string>) {
    && (forall i :: 0 <= i < |breaks| ==> breaks[i] == "\r\n" || breaks[i] == "\r" || breaks[i] == "\n")
    && (forall i :: 1 <= i < |lines| ==> |lines[i]| > 0 && !IsSpace(lines[i][0]))
  }

  lemma {:induction false} SplitLinesShape(s: string)
    ensures LineShaped(SplitLines(s).0, SplitLines(s).1)
    decreases |s|
  {
    if |s| == 0 {
    } else if BreakLen(s, 0) > 0 {
      var k := BreakLen(s, 0);
      SplitLinesShape(s[k..]);
      var rest := SplitLines(s[k..]);
      SplitLinesHead(s[k..]);
      assert s[k] == s[k..][0];
      assert k == 2 ==> s[..k] == "\r\n";
      assert k == 1 ==> s[..k] == "\r" || s[..k] == "\n";
      var r := SplitLines(s);
      assert r == ([""] + rest.0, [s[..k]] + rest.1);
      assert forall i :: 1 <= i < |r.1| ==> r.1[i] == rest.1[i - 1];
      assert forall i :: 2 <= i < |r.0| ==> r.0[i] == rest.0[i - 1];
      assert |r.0[1]| > 0 && !IsSpace(r.0[1][0]);
      forall i | 0 <= i < |r.1|
        ensures r.1[i] == "\r\n" || r.1[i] == "\r" || r.1[i] == "\n"
      {
        if i > 0 { assert r.1[i] == rest.1[i - 1]; }
      }
      forall i | 1 <= i < |r.0|
        ensures |r.0[i]| > 0 && !IsSpace(r.0[i][0])
      {
        if i > 1 { assert r.0[i] == rest.0[i - 1]; }
      }
    } else {
      SplitLinesShape(s[1..]);
      var rest := SplitLines(s[1..]);
      var r := SplitLines(s);
      assert r == ([[s[0]] + rest.0[0]] + rest.0[1..], rest.1);
      assert r.1 == rest.1;
      assert forall i :: 1 <= i < |rest.0| ==> r.0[i] == rest.0[i];
    }
  }

  /** A text that starts with a character that is not `\r` or `\n` has a
      first line that starts with that character. */
  lemma SplitLinesHead(s: string)
    requires |s| > 0 && s[0] != '\r' && s[0] != '\n'
    ensures |SplitLines(s).0[0]| > 0 && SplitLines(s).0[0][0] == s[0]
  {
  }

  /** The split pattern matches nowhere inside the first line, which is a
      prefix of the text: inside it, every `\r` or `\n` is followed by a
      whitespace character. */
  lemma {:induction false} SplitLinesFirstLine(s: string)
    ensures var first := SplitLines(s).0[0];
      |first| <= |s| && first == s[..|first|]
      && (forall j :: 0 <= j < |first| ==> BreakLen(s, j) == 0)
      && forall j :: 0 <= j && j + 1 < |first| && (first[j] == '\r' || first[j] == '\n') ==> IsSpace(first[j + 1])
    decreases |s|
  {
    if |s| > 0 && BreakLen(s, 0) == 0 {
      SplitLinesFirstLine(s[1..]);
      var n := |SplitLines(s[1..]).0[0]|;
      forall j | 1 <= j < n + 1
        ensures BreakLen(s, j) == 0
      {
        assert BreakLen(s, j) == BreakLen(s[1..], j - 1);
      }
      var first := SplitLines(s).0[0];
      assert first == [s[0]] + SplitLines(s[1..]).0[0];
      assert first == s[..|first|];
      forall j | 0 <= j && j + 1 < |first| && (first[j] == '\r' || first[j] == '\n')
        ensures IsSpace(first[j + 1])
      {
        assert BreakLen(s, j) == 0;
        assert first[j] == s[j] && first[j + 1] == s[j + 1];
      }
    }
  }

  /** The split is the leftmost one: after the first line the pattern
      matches with the first break, and the remaining lines are the split of
      what follows that break; with no break the only line is the text. */
  lemma {:induction false} SplitLinesLeftmost(s: string)
    ensures LeftmostCut(s, SplitLines(s))
    decreases |s|
  {
    if |s| == 0 {
    } else if BreakLen(s, 0) > 0 {
      var k := BreakLen(s, 0);
      assert s[0..k] == s[..k];
    } else {
      SplitLinesLeftmost(s[1..]);
      LeftmostStep(s);
    }
  }

  /** `r` cuts `s` at its first break: the first line, then the break
      found right there, then the split of what follows; with no break the
      first line is all of `s`. */
  ghost predicate LeftmostCut(s: string, r: (seq<string>, seq<string>))
    requires |r.0| == |r.1| + 1
  {
    && (|r.1| > 0 ==>
          && |r.0[0]| < |s|
          && BreakLen(s, |r.0[0]|) == |r.1[0]|
          && s[|r.0[0]|..|r.0[0]| + |r.1[0]|] == r.1[0]
          && SplitLines(s[|r.0[0]| + |r.1[0]|..]) == (r.0[1..], r.1[1..]))
    && (|r.1| == 0 ==> r.0[0] == s)
  }

  /** The break positions of `s` after its first character are those of
      `s[1..]`, shifted by one. */
  lemma BreakLenShift(s: string, j: nat)
    requires 0 < j < |s|
    ensures BreakLen(s, j) == BreakLen(s[1..], j - 1)
  {
    assert s[j] == s[1..][j - 1];
    if j + 1 < |s| {
      assert s[j + 1] == s[1..][j];
    }
    if j + 2 < |s| {
      assert s[j + 2] == s[1..][j + 1];
    }
  }

  /** A slice of `s` that starts after its first character is a slice of
      `s[1..]`. */
  lemma SliceOfTail(s: string, i: nat, j: nat)
    requires 1 <= i <= j <= |s|
    ensures s[i..j] == s[1..][i - 1..j - 1]
  {
    assert |s[i..j]| == |s[1..][i - 1..j - 1]|;
    forall k | 0 <= k < j - i
      ensures s[i..j][k] == s[1..][i - 1..j - 1][k]
    {
      assert s[i..j][k] == s[i + k];
    }
  }

  /** The step of `SplitLinesLeftmost` when `s` does not start with a
      break: the first line grows by one character and the rest is as for
      `s[1..]`. */
  lemma LeftmostStep(s: string)
    requires |s| > 0 && BreakLen(s, 0) == 0
    requires LeftmostCut(s[1..], SplitLines(s[1..]))
    ensures LeftmostCut(s, SplitLines(s))
  {
    var rest := SplitLines(s[1..]);
    assert SplitLines(s) == ([[s[0]] + rest.0[0]] + rest.0[1..], rest.1);
    LeftmostPrepend(s, rest);
  }

  /** Putting the first character of `s` in front of the first line of a
      leftmost cut of `s[1..]` gives a leftmost cut of `s`. */
  lemma LeftmostPrepend(s: string, rest: (seq<string>, seq<string>))
    requires |s| > 0 && |rest.0| == |rest.1| + 1
    requires LeftmostCut(s[1..], rest)
    ensures LeftmostCut(s, ([[s[0]] + rest.0[0]] + rest.0[1..], rest.1))
  {
    var r := ([[s[0]] + rest.0[0]] + rest.0[1..], rest.1);
    var n := |rest.0[0]|;
    assert |r.0[0]| == n + 1;
    if |rest.1| > 0 {
      assert r.0[1..] == rest.0[1..];
      BreakShift(s, n, |rest.1[0]|, rest.1[0], (rest.0[1..], rest.1[1..]));
    } else {
      assert s == [s[0]] + s[1..];
    }
  }

  /** A break found at `n` in `s[1..]` is found at `n + 1` in `s`, with
      the same text around it. */
  lemma BreakShift(s: string, n: nat, b: nat, brk: string, tail: (seq<string>, seq<string>))
    requires |s| > 0 && n < |s| - 1
    requires BreakLen(s[1..], n) == b
    requires s[1..][n..n + b] == brk
    requires SplitLines(s[1..][n + b..]) == tail
    ensures BreakLen(s, n + 1) == b
    ensures s[n + 1..n + 1 + b] == brk
    ensures SplitLines(s[n + 1 + b..]) == tail
  {
    BreakLenShift(s, n + 1);
    SliceOfTail(s, n + 1, n + 1 + b);
    SliceOfTail(s, n + 1 + b, |s|);
  }

  /** A fold marker in a joined text would be one in a line: the lines of
      an unfolded text are unfolded too. */
  lemma {:induction false} NoFoldMarkerInLines(lines: seq<string>, breaks: seq<string>)
    requires |lines| == |breaks| + 1
    requires NoFoldMarker(JoinLines(lines, breaks))
    ensures forall i :: 0 <= i < |lines| ==> NoFoldMarker(lines[i])
    decreases |breaks|
  {
    var s := JoinLines(lines, breaks);
    assert NoFoldMarker(lines[0]) by {
      forall i | 0 <= i < |lines[0]| - 1 && lines[0][i] == '\n'
        ensures !IsSpace(lines[0][i + 1])
      {
        assert s[i] == lines[0][i] && s[i + 1] == lines[0][i + 1];
      }
    }
    if |breaks| > 0 {
      var tail := JoinLines(lines[1..], breaks[1..]);
      var m := |lines[0]| + |breaks[0]|;
      assert s == (lines[0] + breaks[0]) + tail;
      assert NoFoldMarker(tail) by {
        forall i | 0 <= i < |tail| - 1 && tail[i] == '\n'
          ensures !IsSpace(tail[i + 1])
        {
          assert s[m + i] == tail[i] && s[m + i + 1] == tail[i + 1];
        }
      }
      NoFoldMarkerInLines(lines[1..], breaks[1..]);
      forall i | 1 <= i < |lines|
        ensures NoFoldMarker(lines[i])
      {
        assert lines[i] == lines[1..][i - 1];
      }
    }
  }

  /** The logical lines of any text: every line after the first starts with
      a non-whitespace character, and no line holds a `\n` followed by
      whitespace. */
  lemma LogicalLinesShape(data: string)
    ensures var lines := LogicalLines(data);
      && |lines| >= 1
      && (forall i :: 1 <= i < |lines| ==> |lines[i]| > 0 && !IsSpace(lines[i][0]))
      && (forall i :: 0 <= i < |lines| ==> NoFoldMarker(lines[i]))
  {
    var s := Unfold(data);
    SplitLinesShape(s);
    SplitLinesJoin(s);
    UnfoldRemovesMarkers(data);
    NoFoldMarkerInLines(SplitLines(s).0, SplitLines(s).1);
  }
}
