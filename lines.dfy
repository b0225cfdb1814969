/** The line reassembler: what the loop of readStreamHandleData does to its pending text, stated
    as a function of that text. Lines are always cut at "\n"; the definition's `newlineDelimiter`
    plays no part. */
module Lines {
  import opened JsString

  predicate NoNewline(s: string)
  {
    '\n' !in s
  }

  predicate AllNoNewline(lines: seq<string>)
  {
    forall i :: 0 <= i < |lines| ==> NoNewline(lines[i])
  }

  /** The text of `lines`, each followed by a newline. */
  function Join(lines: seq<string>): string
  {
    if lines == [] then "" else lines[0] + "\n" + Join(lines[1..])
  }

  /** The complete lines cut off a buffer, in order, and the unterminated tail that stays behind. */
  datatype Split = Split(lines: seq<string>, rest: string)

  /** A buffer is the text before one of its "\n", that "\n", and the text after it. */
  lemma CutAt(s: string, i: int)
    requires 0 <= i < |s| && s[i] == '\n'
    ensures s == s[..i] + "\n" + s[i + 1..]
  {
  }

  /** Putting a line and a "\n" in front of a split text. */
  lemma JoinStep(s: string, l: string, t: string, lines: seq<string>, rest: string)
    requires s == l + "\n" + t
    requires Join(lines) + rest == t
    ensures Join([l] + lines) + rest == s
  {
    JoinCons(l, lines);
  }

  /** Joining one more line in front. */
  lemma JoinCons(l: string, lines: seq<string>)
    ensures Join([l] + lines) == l + "\n" + Join(lines)
  {
    assert ([l] + lines)[1..] == lines;
  }

  lemma ConsNoNewline(l: string, lines: seq<string>)
    requires NoNewline(l) && AllNoNewline(lines)
    ensures AllNoNewline([l] + lines)
  {
    forall k | 0 <= k < |[l] + lines| ensures NoNewline(([l] + lines)[k]) {
      if k > 0 {
        assert ([l] + lines)[k] == lines[k - 1];
      }
    }
  }

  /** The lines the loop hands on, and the text it leaves pending, for a given buffer: cut at the
      first "\n", hand on what precedes it, and continue after it until no "\n" is left. */
  function SplitLines(s: string): Split
    decreases |s|, 1
  {
    SplitAt(s, IndexOfChar(s, '\n'))
  }

  /** The split of a buffer whose first "\n" is at `i` (-1 for none): the text before it is the
      first line, and the rest is split after it. */
  function SplitAt(s: string, i: int): Split
    requires -1 <= i < |s|
    decreases |s|, 0
  {
    if i == -1 then Split([], s)
    else
      var tail := SplitLines(s[i + 1..]);
      Split([s[..i]] + tail.lines, tail.rest)
  }

  lemma SplitAtCut(s: string, i: int)
    requires 0 <= i < |s|
    ensures SplitAt(s, i) == Split([s[..i]] + SplitLines(s[i + 1..]).lines, SplitLines(s[i + 1..]).rest)
  {
  }

  /** One line cut off the front of a buffer, with the text after it. */
  lemma SplitLinesFirst(s: string, i: int)
    requires i == IndexOfChar(s, '\n') && i != -1
    ensures 0 <= i < |s|
    ensures SplitLines(s) == Split([s[..i]] + SplitLines(s[i + 1..]).lines, SplitLines(s[i + 1..]).rest)
  {
    assert SplitLines(s) == SplitAt(s, i);
    SplitAtCut(s, i);
  }

  /** A buffer without "\n" is all pending. */
  lemma SplitLinesNone(s: string)
    requires IndexOfChar(s, '\n') == -1
    ensures SplitLines(s) == Split([], s)
  {
    assert SplitLines(s) == SplitAt(s, -1);
  }

  /** Nothing is lost or duplicated: the lines, each followed by "\n", then the pending tail, give
      back the buffer; and the "\n"s are exactly the ones removed. */
  lemma {:induction false} SplitLinesSound(s: string)
    ensures Join(SplitLines(s).lines) + SplitLines(s).rest == s
    ensures AllNoNewline(SplitLines(s).lines) && NoNewline(SplitLines(s).rest)
    decreases |s|
  {
    var i := IndexOfChar(s, '\n');
    if i == -1 {
      SplitLinesNone(s);
    } else {
      SplitLinesFirst(s, i);
      CutAt(s, i);
      var tail := SplitLines(s[i + 1..]);
      SplitLinesSound(s[i + 1..]);
      JoinStep(s, s[..i], s[i + 1..], tail.lines, tail.rest);
      ConsNoNewline(s[..i], tail.lines);
    }
  }

  lemma {:induction false} JoinAppend(a: seq<string>, b: seq<string>)
    ensures Join(a + b) == Join(a) + Join(b)
  {
    if a != [] {
      assert (a + b)[1..] == a[1..] + b;
      JoinAppend(a[1..], b);
    } else {
      assert a + b == b;
    }
  }

  /** A newline-free line, a "\n" and more text split into that line and the split of the rest. */
  lemma SplitLinesCons(l: string, t: string)
    requires NoNewline(l)
    ensures SplitLines(l + "\n" + t) == Split([l] + SplitLines(t).lines, SplitLines(t).rest)
  {
    var s := l + "\n" + t;
    var i := IndexOfChar(s, '\n');
    assert s[|l|] == '\n';
    assert s[..i] == l;
    assert s[i + 1..] == t;
    SplitLinesFirst(s, i);
  }

  /** Splitting is determined by the text: lines without "\n", each followed by "\n", then a tail
      without "\n", split back into exactly those lines and that tail. */
  lemma {:induction false} SplitLinesUnique(lines: seq<string>, rest: string)
    requires AllNoNewline(lines) && NoNewline(rest)
    ensures SplitLines(Join(lines) + rest) == Split(lines, rest)
  {
    if lines == [] {
      assert Join(lines) + rest == rest;
      SplitLinesNone(rest);
    } else {
      var l, more := lines[0], lines[1..];
      assert lines == [l] + more;
      assert AllNoNewline(more) by {
        forall k | 0 <= k < |more| ensures NoNewline(more[k]) {
          assert more[k] == lines[k + 1];
        }
      }
      JoinCons(l, more);
      assert Join(lines) + rest == l + "\n" + (Join(more) + rest);
      SplitLinesCons(l, Join(more) + rest);
      SplitLinesUnique(more, rest);
    }
  }

  lemma AppendNoNewline(a: seq<string>, b: seq<string>)
    requires AllNoNewline(a) && AllNoNewline(b)
    ensures AllNoNewline(a + b)
  {
    forall i | 0 <= i < |a + b| ensures NoNewline((a + b)[i]) {
      if i < |a| {
        assert (a + b)[i] == a[i];
      } else {
        assert (a + b)[i] == b[i - |a|];
      }
    }
  }

  /** The text of two successive splits, written out again. */
  lemma JoinTwoSplits(a: string, b: string, first: seq<string>, r1: string, second: seq<string>, r2: string)
    requires a == Join(first) + r1 && r1 + b == Join(second) + r2
    ensures a + b == Join(first + second) + r2
  {
    var j1, j2 := Join(first), Join(second);
    JoinAppend(first, second);
    calc {
      a + b;
      (j1 + r1) + b;
      j1 + (r1 + b);
      j1 + (j2 + r2);
      (j1 + j2) + r2;
    }
  }

  /** Chunk boundaries are invisible: cutting `a` and then the pending tail followed by `b` yields
      the same lines, in the same order, and the same final tail as cutting `a + b` at once. */
  lemma SplitLinesConcat(a: string, b: string)
    ensures var first := SplitLines(a);
            var second := SplitLines(first.rest + b);
            SplitLines(a + b) == Split(first.lines + second.lines, second.rest)
  {
    var first := SplitLines(a);
    var second := SplitLines(first.rest + b);
    SplitLinesSound(a);
    SplitLinesSound(first.rest + b);
    JoinTwoSplits(a, b, first.lines, first.rest, second.lines, second.rest);
    AppendNoNewline(first.lines, second.lines);
    SplitLinesUnique(first.lines + second.lines, second.rest);
  }
}
