/** The parser object: the pending text and the blob in progress that readStreamHandleData and
    handleLineData update in place, with the blobs emitted so far as an output sequence. */
module Stream {
  import opened Wrappers
  import opened JsString
  import opened Definition
  import opened Coerce
  import opened Lines
  import opened Assembler

  /** Handing on one more line moves it and its "\n" from the buffer to the joined lines. */
  lemma JoinMoveLine(handled: seq<string>, line: string, rest: string)
    ensures Join(handled) + (line + "\n" + rest) == Join(handled + [line]) + rest
  {
    JoinAppend(handled, [line]);
    assert [line][1..] == [];
    assert Join([line]) == line + "\n";
  }

  /** The loop's bookkeeping for one line: when the buffer's split is that line followed by the
      split of the text after it, moving the line to the handled lines keeps the same overall split. */
  lemma AdvanceLine(whole: Split, handled: seq<string>, cur: Split, line: string, next: Split)
    requires cur == Split([line] + next.lines, next.rest)
    requires handled + cur.lines == whole.lines && cur.rest == whole.rest
    ensures (handled + [line]) + next.lines == whole.lines && next.rest == whole.rest
  {
    assert handled + ([line] + next.lines) == (handled + [line]) + next.lines;
  }

  /** The text of the handled lines and the buffer stays the same when a line moves across. */
  lemma AdvanceText(handled: seq<string>, buf: string, i: int)
    requires 0 <= i < |buf| && buf[i] == '\n'
    ensures Join(handled) + buf == Join(handled + [buf[..i]]) + buf[i + 1..]
  {
    CutAt(buf, i);
    JoinMoveLine(handled, buf[..i], buf[i + 1..]);
  }

  lemma PrefixOfAppend<T>(a: seq<T>, b: seq<T>, c: seq<T>)
    requires a + b == c
    ensures a <= c
  {
    assert c[..|a|] == a;
  }

  class BlobStream {
    /** The blob definition, fixed for the whole stream. */
    const definition: BlobDefinition
    /** `streamData`: text received but not yet cut into lines. */
    var buffer: string
    /** `currentBlob`: the blob in progress. */
    var current: Option<Blob>
    /** The blobs emitted with the 'blob' event, in order. */
    var emitted: seq<Option<Blob>>
    /** Whether the 'end' event has been emitted. */
    var ended: bool

    /** The assembler's part of the state. */
    function Assembly(): State
      reads this
    {
      State(current, emitted)
    }

    /** A parser for a definition: nothing pending, no blob in progress, nothing emitted. */
    constructor (definition: BlobDefinition)
      ensures this.definition == definition
      ensures buffer == "" && Assembly() == State(None, []) && !ended
    {
      this.definition := definition;
      buffer := "";
      current := None;
      emitted := [];
      ended := false;
    }

    /** handleLineData: one line's effect on the blob in progress and on the output. */
    method HandleLine(line: string) returns (thrown: Option<Error>)
      modifies this`current, this`emitted
      ensures Step(Assembly(), thrown) == LineStep(definition, old(Assembly()), line)
    {
      if line == definition.settings.blobEnd {
        emitted := emitted + [current];
        current := None;
        return None;
      }
      var index := JsString.IndexOf(line, definition.settings.kvpDelimiter);
      if index > -1 {
        if current.None? {
          current := Some(map[]);
        }
        var key := line[..index];
        var value := Substr(line, index + 1);
        var converted := ConvertValue(definition.structure, key, value);
        if converted.Failure? {
          return Some(converted.error);
        }
        current := Some(current.value[key := converted.value]);
      }
      return None;
    }

    /** readStreamHandleData: append the chunk to the pending text, then cut off and handle every
        complete line, in order, until no "\n" is left. A throw from handleLineData ends the call
        with the line already cut off and the later lines still pending. `handled` lists the lines
        handed to handleLineData. */
    method ReadData(chunk: string) returns (thrown: Option<Error>, ghost handled: seq<string>)
      modifies this`buffer, this`current, this`emitted
      ensures old(buffer) + chunk == Join(handled) + buffer
      ensures handled <= SplitLines(old(buffer) + chunk).lines
      ensures Step(Assembly(), thrown) == RunLines(definition, old(Assembly()), handled)
      ensures thrown.None? ==> Split(handled, buffer) == SplitLines(old(buffer) + chunk)
      ensures thrown.Some? ==>
                handled != [] && RunLines(definition, old(Assembly()), handled[..|handled| - 1]).thrown.None?
    {
      buffer := buffer + chunk;
      ghost var whole := SplitLines(buffer);
      handled := [];
      thrown := None;
      var newlineIndex := IndexOfChar(buffer, '\n');
      while newlineIndex > -1
        invariant newlineIndex == IndexOfChar(buffer, '\n')
        invariant thrown == None
        invariant whole == SplitLines(old(buffer) + chunk)
        invariant handled + SplitLines(buffer).lines == whole.lines && SplitLines(buffer).rest == whole.rest
        invariant old(buffer) + chunk == Join(handled) + buffer
        invariant Step(Assembly(), None) == RunLines(definition, old(Assembly()), handled)
        decreases |buffer|
      {
        var line := buffer[..newlineIndex];
        SplitLinesFirst(buffer, newlineIndex);
        AdvanceLine(whole, handled, SplitLines(buffer), line, SplitLines(buffer[newlineIndex + 1..]));
        AdvanceText(handled, buffer, newlineIndex);
        buffer := buffer[newlineIndex + 1..];
        ghost var before := Assembly();
        ghost var start := old(Assembly());
        assert RunLines(definition, start, handled) == Step(before, None);
        thrown := HandleLine(line);
        assert Step(Assembly(), thrown) == RunLines(definition, start, handled + [line]) by {
          RunSnoc(definition, start, handled, line);
        }
        assert (handled + [line])[..|handled|] == handled;
        handled := handled + [line];
        PrefixOfAppend(handled, SplitLines(buffer).lines, whole.lines);
        if thrown.Some? {
          return;
        }
        newlineIndex := IndexOfChar(buffer, '\n');
      }
      SplitLinesNone(buffer);
      PrefixOfAppend(handled, SplitLines(buffer).lines, whole.lines);
    }

    /** readStreamHandleEnd: the 'end' event; the pending text and the blob in progress are
        abandoned and no blob is emitted. */
    method End()
      modifies this`ended
      ensures ended && emitted == old(emitted)
    {
      ended := true;
    }
  }

  /** Chunk boundaries are invisible to the whole parser: feeding `a` and then `b` cuts the same
      lines, leaves the same pending text and reaches the same blob state as feeding `a + b`,
      provided the first call does not throw. */
  lemma ChunkBoundariesInvisible(def: BlobDefinition, st: State, pending: string, a: string, b: string)
    requires RunLines(def, st, SplitLines(pending + a).lines).thrown == None
    ensures var first := SplitLines(pending + a);
            var second := SplitLines(first.rest + b);
            var whole := SplitLines(pending + a + b);
            && whole.lines == first.lines + second.lines
            && whole.rest == second.rest
            && RunLines(def, st, whole.lines) == RunLines(def, RunLines(def, st, first.lines).state, second.lines)
  {
    var first := SplitLines(pending + a);
    var second := SplitLines(first.rest + b);
    SplitLinesConcat(pending + a, b);
    RunLinesAppend(def, st, first.lines, second.lines);
  }
}
