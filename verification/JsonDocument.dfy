/** Writing a document and reading it back, with the writer's and the reader's own loops. */
module JsonDocument {
  import opened Wrappers
  import opened Json
  import JsonReader
  import JsonRoundTrip
  import JsonWriter

  /** The text loads exactly when the value is nested at most 5000 deep, and then the tree that was read stands for the
      value that was written. */
  method DumpAndLoad(v: Value, lay: Layout) returns (r: Option<JsonReader.RValue>, data: array<char>)
    requires JsonRoundTrip.ReadableLayout(lay)
    ensures r.Some? <==> JsonRoundTrip.Nesting(v) <= 5000
    ensures r.Some? ==>
              && JsonReader.Sound(data[..], r.value, 0, data.Length)
              && JsonReader.View(data[..], r.value, 0, data.Length) == JsonRoundTrip.ToRead(v)
  {
    hide Load, Dump, JsonReader.Sound, JsonReader.View, JsonRoundTrip.ToRead, JsonRoundTrip.Nesting;
    JsonRoundTrip.DocumentRoundTrip(v, lay);
    var text := JsonWriter.DumpDocument(v, lay);
    r, data := JsonReader.LoadText(text);
  }
}
