/** convertValue: turning the raw text after the delimiter into the field's typed value, according
    to the `type` of the field's entry in the definition's `structure`. */
module Coerce {
  import opened Wrappers
  import opened JsString
  import opened Definition

  /** The values a field of a blob can hold. */
  datatype Value =
    | Text(s: string)            // a field without a recognised type: the raw text
    | Number(n: Option<int>)     // an `int` field: parseInt's result, None for NaN
    | Flag(b: bool)              // a `bool` or `boolean` field
    | FloatOf(raw: string)       // a `float` field: parseFloat of this text, not interpreted here
    | DateOf(raw: string)        // a `date` field: new Date of this text, not interpreted here

  /** What convertValue throws: reading `.type` of the entry of a key that `structure` lacks. */
  datatype Error = MissingField(key: string)

  /** The `bool`/`boolean` conversion: the text, lower-cased, compared with "true" (no trimming). */
  function ParseBool(raw: string): bool
  {
    ToLowerCase(raw) == "true"
  }

  /** The field types the conversion recognises; the comparison is exact and case-sensitive. */
  const TypeTags: set<string> := {"int", "float", "boolean", "bool", "date"}

  function ConvertValue(structure: map<string, FieldSpec>, key: string, raw: string): (r: Result<Value, Error>)
    ensures r.Failure? <==> key !in structure
    ensures r.Failure? ==> r.error == MissingField(key)
    ensures r.Success? && (structure[key].typ.None? || structure[key].typ.value !in TypeTags) ==>
              r.value == Text(raw)
    ensures r.Success? && structure[key].typ == Some("int") ==> r.value == Number(ParseInt(raw))
    ensures r.Success? && structure[key].typ in {Some("bool"), Some("boolean")} ==> r.value == Flag(ParseBool(raw))
    ensures r.Success? && structure[key].typ == Some("float") ==> r.value == FloatOf(raw)
    ensures r.Success? && structure[key].typ == Some("date") ==> r.value == DateOf(raw)
  {
    if key !in structure then Failure(MissingField(key))
    else match structure[key].typ
      case None => Success(Text(raw))
      case Some(t) =>
        if t == "int" then Success(Number(ParseInt(raw)))
        else if t == "float" then Success(FloatOf(raw))
        else if t == "boolean" || t == "bool" then Success(Flag(ParseBool(raw)))
        else if t == "date" then Success(DateOf(raw))
        else Success(Text(raw))
  }

  /** A character lower-cases to a given lower-case ASCII letter exactly when it is that letter or
      its capital. */
  lemma LowerCharIs(c: char, lower: char)
    requires 'a' <= lower <= 'z'
    ensures LowerChar(c) == lower <==> c == lower || c as int == lower as int - 32
  {
  }

  /** The `bool` conversion is true exactly for the four letters of "true" in any mix of cases,
      with nothing before or after them. */
  lemma ParseBoolExactlyTrue(raw: string)
    ensures ParseBool(raw) <==>
              |raw| == 4 && forall i :: 0 <= i < 4 ==> raw[i] == "true"[i] || raw[i] == "TRUE"[i]
  {
    var low := ToLowerCase(raw);
    if |raw| == 4 {
      forall i | 0 <= i < 4 ensures low[i] == "true"[i] <==> raw[i] == "true"[i] || raw[i] == "TRUE"[i] {
        LowerCharIs(raw[i], "true"[i]);
      }
      if ParseBool(raw) {
        assert forall i :: 0 <= i < 4 ==> low[i] == "true"[i];
      } else {
        assert exists i :: 0 <= i < 4 && low[i] != "true"[i];
      }
    } else {
      assert |low| != |"true"|;
    }
  }

  /** An `int` field holds the number its decimal text denotes, whatever follows the digits. */
  lemma ConvertIntRoundTrip(structure: map<string, FieldSpec>, key: string, n: int, tail: string)
    requires key in structure && structure[key].typ == Some("int")
    requires tail == [] || !IsDigit(tail[0])
    ensures ConvertValue(structure, key, ToDecimal(n) + tail) == Success(Number(Some(n)))
  {
    var raw := ToDecimal(n) + tail;
    assert ParseInt(raw) == Some(n) by {
      assert "" + ToDecimal(n) + tail == raw;
      ParseIntRoundTrip("", n, tail);
    }
  }

  /** An `int` field whose text starts with something that is neither white space, a sign nor a
      digit holds NaN, whatever follows. */
  lemma ConvertIntNaN(structure: map<string, FieldSpec>, key: string, raw: string)
    requires key in structure && structure[key].typ == Some("int")
    requires raw != [] && !IsWhitespace(raw[0]) && !IsDigit(raw[0]) && raw[0] != '-' && raw[0] != '+'
    ensures ConvertValue(structure, key, raw) == Success(Number(None))
  {
  }

  /** A `bool` or `boolean` field holds true exactly for the text "true" in any mix of cases. */
  lemma ConvertBool(structure: map<string, FieldSpec>, key: string, raw: string)
    requires key in structure && structure[key].typ in {Some("bool"), Some("boolean")}
    ensures ConvertValue(structure, key, raw) ==
              Success(Flag(|raw| == 4 && forall i :: 0 <= i < 4 ==> raw[i] == "true"[i] || raw[i] == "TRUE"[i]))
  {
    ParseBoolExactlyTrue(raw);
  }

  /** The sample definition: `id` is read as an integer, `name` is kept as text, and a key the
      definition does not list makes the conversion throw. */
  lemma SampleConversions()
    ensures ConvertValue(SampleBlob.structure, "id", "1") == Success(Number(Some(1)))
    ensures ConvertValue(SampleBlob.structure, "name", "Ottawa") == Success(Text("Ottawa"))
    ensures ConvertValue(SampleBlob.structure, "country", "Canada") == Failure(MissingField("country"))
  {
    assert "1" == ToDecimal(1) + "";
    ConvertIntRoundTrip(SampleBlob.structure, "id", 1, "");
  }
}
