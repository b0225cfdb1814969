/** What the sample definition does with blobs made of an `id=` line, a `name=` line and an "EOB"
    line (the two fields the repository's test checks), for every id and every name. */
module Scenarios {
  import opened Wrappers
  import opened JsString
  import opened Definition
  import opened Coerce
  import opened Lines
  import opened Assembler
  import opened Stream

  /** The lines of one sample blob. */
  function RecordLines(id: int, name: string): seq<string>
  {
    ["id=" + ToDecimal(id), "name=" + name, "EOB"]
  }

  /** The text of one sample blob. */
  function RecordText(id: int, name: string): string
  {
    "id=" + ToDecimal(id) + "\n" + "name=" + name + "\n" + "EOB\n"
  }

  /** A field line of the sample definition stores the converted value and emits nothing. */
  lemma SampleFieldStep(st: State, key: string, raw: string, v: Value)
    requires '=' !in key && key in SampleBlob.structure
    requires ConvertValue(SampleBlob.structure, key, raw) == Success(v)
    ensures LineStep(SampleBlob, st, key + "=" + raw) ==
              Step(State(Some(Fields(st.current)[key := v]), st.emitted), None)
  {
    assert key + "=" + raw != "EOB" by {
      assert (key + "=" + raw)[|key|] == '=';
      assert '=' !in "EOB";
    }
    SplitPairRoundTrip(key, "=", raw);
  }

  /** The `id=` line of a sample blob stores the parsed integer. */
  lemma IdStep(st: State, id: int)
    ensures LineStep(SampleBlob, st, "id=" + ToDecimal(id)) ==
              Step(State(Some(Fields(st.current)["id" := Number(Some(id))]), st.emitted), None)
  {
    var line := "id=" + ToDecimal(id);
    assert line == "id" + "=" + ToDecimal(id);
    assert line != "EOB" by {
      assert line[0] == 'i';
    }
    assert ConvertValue(SampleBlob.structure, "id", ToDecimal(id)) == Success(Number(Some(id))) by {
      assert ToDecimal(id) == ToDecimal(id) + "";
      ConvertIntRoundTrip(SampleBlob.structure, "id", id, "");
    }
    SampleFieldStep(st, "id", ToDecimal(id), Number(Some(id)));
  }

  /** The `name=` line of a sample blob stores the text after the delimiter as it is. */
  lemma NameStep(st: State, name: string)
    ensures LineStep(SampleBlob, st, "name=" + name) ==
              Step(State(Some(Fields(st.current)["name" := Text(name)]), st.emitted), None)
  {
    var line := "name=" + name;
    assert line == "name" + "=" + name;
    assert line != "EOB" by {
      assert line[0] == 'n';
    }
    SampleFieldStep(st, "name", name, Text(name));
  }

  /** A sample blob emits one record in which `id` is the integer and `name` the text, and
      leaves nothing in progress. */
  lemma SampleRecord(st: State, id: int, name: string)
    requires st.current == None
    ensures RunLines(SampleBlob, st, RecordLines(id, name)) ==
              Step(State(None, st.emitted + [Some(map["id" := Number(Some(id)), "name" := Text(name)])]), None)
  {
    var lines := RecordLines(id, name);
    assert lines == lines[..2] + ["EOB"];
    TruncatedBlobNotEmitted(st, id, name);
    RunSnoc(SampleBlob, st, lines[..2], "EOB");
  }

  /** The text of a sample blob is cut into its three lines, with nothing left pending. */
  lemma RecordTextLines(id: int, name: string)
    requires '\n' !in name
    ensures SplitLines(RecordText(id, name)) == Split(RecordLines(id, name), "")
  {
    var lines := RecordLines(id, name);
    assert NoNewline(lines[0]) by {
      var m: nat := if id < 0 then -id else id;
      DecimalDigitsValue(m);
      assert NoNewline(ToDecimal(id));
      assert lines[0] == "id=" + ToDecimal(id);
    }
    assert NoNewline(lines[1]);
    assert NoNewline(lines[2]);
    assert AllNoNewline(lines);
    JoinCons(lines[2], []);
    JoinCons(lines[1], [lines[2]]);
    JoinCons(lines[0], [lines[1], lines[2]]);
    assert [lines[0], lines[1], lines[2]] == lines;
    assert Join(lines) + "" == RecordText(id, name);
    SplitLinesUnique(lines, "");
  }

  /** Two sample blobs in one chunk yield both records, in order. */
  lemma TwoRecords(id1: int, name1: string, id2: int, name2: string)
    ensures RunLines(SampleBlob, State(None, []), RecordLines(id1, name1) + RecordLines(id2, name2)) ==
              Step(State(None, [Some(map["id" := Number(Some(id1)), "name" := Text(name1)]),
                                Some(map["id" := Number(Some(id2)), "name" := Text(name2)])]), None)
  {
    var st := State(None, []);
    RunLinesAppend(SampleBlob, st, RecordLines(id1, name1), RecordLines(id2, name2));
    SampleRecord(st, id1, name1);
    SampleRecord(RunLines(SampleBlob, st, RecordLines(id1, name1)).state, id2, name2);
  }

  /** A truncated blob: an `id=` and a `name=` line without "EOB" emit nothing; the blob they
      built, with `id` the integer and `name` the text, stays in progress. */
  lemma TruncatedBlobNotEmitted(st: State, id: int, name: string)
    requires st.current == None
    ensures RunLines(SampleBlob, st, RecordLines(id, name)[..2]) ==
              Step(State(Some(map["id" := Number(Some(id)), "name" := Text(name)]), st.emitted), None)
  {
    var def := SampleBlob;
    var idLine, nameLine := "id=" + ToDecimal(id), "name=" + name;
    var st1 := State(Some(map["id" := Number(Some(id))]), st.emitted);
    assert RunLines(def, st, [idLine]) == Step(st1, None) by {
      IdStep(st, id);
      assert Fields(st.current)["id" := Number(Some(id))] == map["id" := Number(Some(id))];
      RunOneLine(def, st, idLine);
    }
    NameStep(st1, name);
    RunSnoc(def, st, [idLine], nameLine);
    assert [idLine] + [nameLine] == RecordLines(id, name)[..2];
  }
}
