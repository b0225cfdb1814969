/** The blob assembler: what handleLineData does to the blob in progress and to the blobs emitted
    so far, for one line (LineStep) and for a sequence of lines (RunLines). */
module Assembler {
  import opened Wrappers
  import opened JsString
  import opened Definition
  import opened Coerce

  /** A blob: field name to converted value. */
  type Blob = map<string, Value>

  /** The assembler's part of the parser's state: the blob in progress (`None` before the first
      field of a blob, standing for both `undefined` and `null`) and every blob emitted so far, in
      order. An emitted `None` is a blob end that found no blob in progress. */
  datatype State = State(current: Option<Blob>, emitted: seq<Option<Blob>>)

  /** The state after some lines, and what was thrown, if anything. */
  datatype Step = Step(state: State, thrown: Option<Error>)

  /** A key/value line cut at the first occurrence of the delimiter. */
  datatype Pair = Pair(key: string, raw: string)

  /** The fields of a blob in progress; a missing blob is created empty when a field arrives. */
  function Fields(current: Option<Blob>): Blob
  {
    if current.Some? then current.value else map[]
  }

  /** A one-character piece of a text between what precedes and what follows it. */
  lemma CutAround(s: string, i: int, d: string)
    requires 0 <= i && i + 1 <= |s| && |d| == 1 && s[i..i + 1] == d
    ensures s[..i] + d + s[i + 1..] == s
  {
    var t := s[..i] + d + s[i + 1..];
    assert |t| == |s|;
    forall k | 0 <= k < |s| ensures t[k] == s[k] {
      if k < i {
        assert t[k] == s[..i][k];
      } else if k == i {
        assert t[k] == d[0] == s[i..i + 1][0];
      } else {
        assert t[k] == s[i + 1..][k - i - 1];
      }
    }
  }

  /** The pair cut around the first occurrence `i` of the delimiter. */
  lemma CutPair(line: string, delimiter: string, i: int)
    requires OccursAt(line, delimiter, i) && forall j :: 0 <= j < i ==> !OccursAt(line, delimiter, j)
    ensures var p := Pair(line[..i], Substr(line, i + 1));
            && OccursAt(line, delimiter, |p.key|)
            && p.key == line[..|p.key|]
            && (forall j :: 0 <= j < |p.key| ==> !OccursAt(line, delimiter, j))
            && p.raw == Substr(line, |p.key| + 1)
            && (|delimiter| == 1 ==> p.key + delimiter + p.raw == line)
  {
    if |delimiter| == 1 {
      CutAround(line, i, delimiter);
    }
  }

  /** `key = line.substring(0, i)` and `value = line.substr(i + 1)` around the first occurrence
      `i` of the delimiter, or nothing when the delimiter does not occur. */
  function SplitPair(line: string, delimiter: string): (r: Option<Pair>)
    ensures r.None? <==> forall i :: !OccursAt(line, delimiter, i)
    ensures r.Some? ==>
              && OccursAt(line, delimiter, |r.value.key|)
              && r.value.key == line[..|r.value.key|]
              && forall i :: 0 <= i < |r.value.key| ==> !OccursAt(line, delimiter, i)
    ensures r.Some? ==> r.value.raw == Substr(line, |r.value.key| + 1)
    ensures r.Some? && |delimiter| == 1 ==> r.value.key + delimiter + r.value.raw == line
  {
    var i := IndexOf(line, delimiter);
    if i == -1 then None
    else
      CutPair(line, delimiter, i);
      Some(Pair(line[..i], Substr(line, i + 1)))
  }

  /** A key, a one-character delimiter that the key does not contain, and a value split back into
      that key and that value, whatever the value contains. */
  lemma SplitPairRoundTrip(key: string, delimiter: string, raw: string)
    requires |delimiter| == 1 && delimiter[0] !in key
    ensures SplitPair(key + delimiter + raw, delimiter) == Some(Pair(key, raw))
  {
    var s := key + delimiter + raw;
    assert OccursAt(s, delimiter, |key|) by {
      assert s[|key|..|key| + 1] == delimiter;
    }
    forall i | 0 <= i < |key| ensures !OccursAt(s, delimiter, i) {
      assert s[i..i + 1][0] == key[i];
    }
    var r := SplitPair(s, delimiter);
    assert |r.value.key| == |key|;
    assert r.value.key == key;
    assert s[|key| + 1..] == raw;
  }

  /** What handleLineData does with one line: a line equal to the blob end emits the blob in
      progress, whatever it is, and clears it; any other line with the delimiter creates the blob if
      needed and stores the converted value under its key; a line without the delimiter is dropped.
      A key the definition lacks throws after the blob has been created. */
  function LineStep(def: BlobDefinition, st: State, line: string): Step
  {
    if line == def.settings.blobEnd then Step(State(None, st.emitted + [st.current]), None)
    else match SplitPair(line, def.settings.kvpDelimiter)
      case None => Step(st, None)
      case Some(p) =>
        var blob := Fields(st.current);
        match ConvertValue(def.structure, p.key, p.raw)
        case Failure(e) => Step(State(Some(blob), st.emitted), Some(e))
        case Success(v) => Step(State(Some(blob[p.key := v]), st.emitted), None)
  }

  /** The blob end is checked before the delimiter: a line equal to it emits the blob in progress,
      even when there is none and even when the blob end contains the delimiter. */
  lemma SentinelClosesBlob(def: BlobDefinition, st: State, line: string)
    requires line == def.settings.blobEnd
    ensures LineStep(def, st, line) == Step(State(None, st.emitted + [st.current]), None)
  {
  }

  /** Any other line without the delimiter changes nothing and emits nothing. */
  lemma LineWithoutDelimiterIgnored(def: BlobDefinition, st: State, line: string)
    requires line != def.settings.blobEnd
    requires forall i :: !OccursAt(line, def.settings.kvpDelimiter, i)
    ensures LineStep(def, st, line) == Step(st, None)
  {
  }

  /** Only the first delimiter separates key from value; later ones belong to the value. */
  lemma FirstDelimiterSplits()
    ensures SplitPair("a=b=c", "=") == Some(Pair("a", "b=c"))
  {
    var r := SplitPair("a=b=c", "=");
    assert OccursAt("a=b=c", "=", 1);
    assert !OccursAt("a=b=c", "=", 0) by {
      assert "a=b=c"[0..1] == "a";
    }
    assert r.Some?;
    assert |r.value.key| == 1;
    assert r.value.key == "a=b=c"[..1] == "a";
    assert r.value.raw == "a=b=c"[2..] == "b=c";
  }

  /** With a longer delimiter the value still starts one character after the key, so the rest of
      the delimiter stays at the front of the value. */
  lemma LongDelimiterValue()
    ensures SplitPair("a==b", "==") == Some(Pair("a", "=b"))
  {
    var r := SplitPair("a==b", "==");
    assert OccursAt("a==b", "==", 1);
    assert !OccursAt("a==b", "==", 0) by {
      assert "a==b"[0..2][0] == 'a';
    }
    assert r.Some?;
    assert |r.value.key| == 1;
    assert r.value.key == "a==b"[..1] == "a";
    assert r.value.raw == "a==b"[2..] == "=b";
  }

  /** A key/value line whose key the definition lists stores the converted value under that key,
      creating the blob if none is open; every other field is kept and nothing is emitted. */
  lemma PairStored(def: BlobDefinition, st: State, line: string, p: Pair)
    requires line != def.settings.blobEnd
    requires SplitPair(line, def.settings.kvpDelimiter) == Some(p)
    requires p.key in def.structure
    ensures var r := LineStep(def, st, line);
            && r.thrown == None
            && r.state.emitted == st.emitted
            && r.state.current.Some?
            && Success(r.state.current.value[p.key]) == ConvertValue(def.structure, p.key, p.raw)
            && forall k :: k != p.key ==>
                 (k in r.state.current.value <==> k in Fields(st.current)) &&
                 (k in Fields(st.current) ==> r.state.current.value[k] == Fields(st.current)[k])
  {
  }

  /** A key/value line whose key the definition lacks throws; the blob has already been created
      by then, and nothing is emitted. */
  lemma PairMissingField(def: BlobDefinition, st: State, line: string, p: Pair)
    requires line != def.settings.blobEnd
    requires SplitPair(line, def.settings.kvpDelimiter) == Some(p)
    requires p.key !in def.structure
    ensures LineStep(def, st, line) == Step(State(Some(Fields(st.current)), st.emitted), Some(MissingField(p.key)))
  {
  }

  /** handleLineData applied to each line in turn, stopping at the first line that throws. */
  function RunLines(def: BlobDefinition, st: State, lines: seq<string>): (r: Step)
    ensures st.emitted <= r.state.emitted
    decreases |lines|
  {
    if lines == [] then Step(st, None)
    else
      var s := LineStep(def, st, lines[0]);
      if s.thrown.Some? then s else RunLines(def, s.state, lines[1..])
  }

  /** Running two stretches of lines one after the other is running them together. */
  lemma {:induction false} RunLinesAppend(def: BlobDefinition, st: State, a: seq<string>, b: seq<string>)
    ensures RunLines(def, st, a + b) ==
              var first := RunLines(def, st, a);
              if first.thrown.Some? then first else RunLines(def, first.state, b)
    decreases |a|
  {
    if a == [] {
      assert a + b == b;
    } else {
      assert (a + b)[0] == a[0];
      assert (a + b)[1..] == a[1..] + b;
      var s := LineStep(def, st, a[0]);
      if s.thrown.None? {
        RunLinesAppend(def, s.state, a[1..], b);
      }
    }
  }

  /** Running a single line is that line's step. */
  lemma RunOneLine(def: BlobDefinition, st: State, line: string)
    ensures RunLines(def, st, [line]) == LineStep(def, st, line)
  {
    assert [line][1..] == [];
  }

  /** Running one more line after lines that did not throw is that line's step. */
  lemma RunSnoc(def: BlobDefinition, st: State, lines: seq<string>, line: string)
    requires RunLines(def, st, lines).thrown == None
    ensures RunLines(def, st, lines + [line]) == LineStep(def, RunLines(def, st, lines).state, line)
  {
    RunLinesAppend(def, st, lines, [line]);
    RunOneLine(def, RunLines(def, st, lines).state, line);
  }

  /** When no line throws, exactly one blob (or `None`) is emitted per line equal to the blob end. */
  lemma {:induction false} RunLinesEmitsPerSentinel(def: BlobDefinition, st: State, lines: seq<string>)
    requires RunLines(def, st, lines).thrown == None
    ensures |RunLines(def, st, lines).state.emitted| == |st.emitted| + multiset(lines)[def.settings.blobEnd]
    decreases |lines|
  {
    if lines != [] {
      assert lines == [lines[0]] + lines[1..];
      assert multiset(lines) == multiset([lines[0]]) + multiset(lines[1..]);
      var s := LineStep(def, st, lines[0]);
      RunLinesEmitsPerSentinel(def, s.state, lines[1..]);
    }
  }

  /** The raw value of the last key/value line for `key` among `lines`, if any. */
  function LastRaw(delimiter: string, lines: seq<string>, key: string): Option<string>
  {
    if lines == [] then None
    else
      var p := SplitPair(lines[|lines| - 1], delimiter);
      if p.Some? && p.value.key == key then Some(p.value.raw) else LastRaw(delimiter, lines[..|lines| - 1], key)
  }

  /** One line that is not the blob end and does not throw: only the key it carries changes, and it
      then holds the converted value; nothing is emitted. */
  lemma LineStepFields(def: BlobDefinition, st: State, line: string)
    requires line != def.settings.blobEnd
    requires LineStep(def, st, line).thrown == None
    ensures var r := LineStep(def, st, line).state;
            var p := SplitPair(line, def.settings.kvpDelimiter);
            && r.emitted == st.emitted
            && (r.current.None? <==> st.current.None? && p.None?)
            && (forall key :: p.Some? && p.value.key == key ==>
                  key in Fields(r.current) &&
                  ConvertValue(def.structure, key, p.value.raw) == Success(Fields(r.current)[key]))
            && (forall key :: !(p.Some? && p.value.key == key) ==>
                  (key in Fields(r.current) <==> key in Fields(st.current)) &&
                  (key in Fields(st.current) ==> Fields(r.current)[key] == Fields(st.current)[key]))
  {
  }

  /** Last write wins: across lines without a blob end and without a throw, the blob in progress ends
      up holding, for each key, the converted value of the last line for that key, and keeps the
      earlier value of every key no line mentions; it is open exactly when it was open before or some
      line carried the delimiter; nothing is emitted. */
  lemma {:induction false} LastWriteWins(def: BlobDefinition, st: State, lines: seq<string>)
    requires forall i :: 0 <= i < |lines| ==> lines[i] != def.settings.blobEnd
    requires RunLines(def, st, lines).thrown == None
    ensures var r := RunLines(def, st, lines).state;
            var d := def.settings.kvpDelimiter;
            && r.emitted == st.emitted
            && (r.current.None? <==> st.current.None? && forall i :: 0 <= i < |lines| ==> SplitPair(lines[i], d).None?)
            && (forall key :: LastRaw(d, lines, key).Some? ==>
                  key in Fields(r.current) &&
                  ConvertValue(def.structure, key, LastRaw(d, lines, key).value) == Success(Fields(r.current)[key]))
            && (forall key :: LastRaw(d, lines, key).None? ==>
                  (key in Fields(r.current) <==> key in Fields(st.current)) &&
                  (key in Fields(st.current) ==> Fields(r.current)[key] == Fields(st.current)[key]))
    decreases |lines|
  {
    var d := def.settings.kvpDelimiter;
    if lines == [] {
      return;
    }
    var before, line := lines[..|lines| - 1], lines[|lines| - 1];
    assert lines == before + [line];
    RunLinesAppend(def, st, before, [line]);
    var mid := RunLines(def, st, before);
    assert mid.thrown == None;
    LastWriteWins(def, st, before);
    RunOneLine(def, mid.state, line);
    LineStepFields(def, mid.state, line);
    forall key
      ensures LastRaw(d, lines, key) == (if SplitPair(line, d).Some? && SplitPair(line, d).value.key == key
                                         then Some(SplitPair(line, d).value.raw) else LastRaw(d, before, key))
    {
      LastRawSnoc(d, before, line, key);
    }
    SnocElements(before, line);
  }

  /** The last line for a key among some lines and one more is that line, if it is for the key. */
  lemma LastRawSnoc(d: string, before: seq<string>, line: string, key: string)
    ensures LastRaw(d, before + [line], key) ==
              (if SplitPair(line, d).Some? && SplitPair(line, d).value.key == key
               then Some(SplitPair(line, d).value.raw) else LastRaw(d, before, key))
  {
    assert (before + [line])[..|before|] == before;
  }

  lemma SnocElements<T>(before: seq<T>, x: T)
    ensures forall i :: 0 <= i < |before| ==> (before + [x])[i] == before[i]
  {
  }

  /** A blob end after lines without a blob end emits the blob those lines built and clears it. */
  lemma ClosedBlob(def: BlobDefinition, st: State, lines: seq<string>)
    requires RunLines(def, st, lines).thrown == None
    ensures RunLines(def, st, lines + [def.settings.blobEnd]) ==
              Step(State(None, RunLines(def, st, lines).state.emitted + [RunLines(def, st, lines).state.current]), None)
  {
    RunLinesAppend(def, st, lines, [def.settings.blobEnd]);
    RunOneLine(def, RunLines(def, st, lines).state, def.settings.blobEnd);
  }

  /** Two blob ends in a row emit the blob in progress and then a `None`. */
  lemma DoubleSentinel(def: BlobDefinition, st: State)
    ensures var e := def.settings.blobEnd;
            RunLines(def, st, [e, e]) == Step(State(None, st.emitted + [st.current, None]), None)
  {
    var e := def.settings.blobEnd;
    RunLinesAppend(def, st, [e], [e]);
    assert [e] + [e] == [e, e];
    RunOneLine(def, st, e);
    RunOneLine(def, State(None, st.emitted + [st.current]), e);
  }
}
