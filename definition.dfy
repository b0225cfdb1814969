/** The blob definition: how the text of a stream is cut into blobs and how each field is typed.
    The parser receives it as a value; it is never changed while a stream is parsed. */
module Definition {
  import opened Wrappers

  /** One entry of `structure`: the field's `type` property, `None` when the entry has no `type`. */
  datatype FieldSpec = FieldSpec(typ: Option<string>)

  /** The `settings` object of a definition. Only `blobEnd` and `kvpDelimiter` are ever read by the
      parser; `mode` and `newlineDelimiter` are carried but ignored (the line separator is always "\n"). */
  datatype Settings = Settings(mode: string, blobEnd: string, kvpDelimiter: string, newlineDelimiter: string)

  datatype BlobDefinition = BlobDefinition(settings: Settings, structure: map<string, FieldSpec>)

  /** The sample definition shipped with the repository and loaded by its test. */
  const SampleBlob: BlobDefinition :=
    BlobDefinition(
      Settings("multiLine", "EOB", "=", "\n"),
      map["id" := FieldSpec(Some("int")), "name" := FieldSpec(None), "location" := FieldSpec(None)])
}
