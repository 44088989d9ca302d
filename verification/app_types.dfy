/** The shared types of app.types.ts: the extraction tools and the payload the backend returns. */
module AppTypes {
  import opened Wrappers

  /** The three extraction backends a user can pick. */
  datatype Tool = Spacy | Plumber | Docling

  /** One extracted table: column names and rows of cell strings. */
  datatype Table = Table(headers: seq<string>, values: seq<seq<string>>)

  /** The decoded response of an extraction request. `tables` is typed as a one-element
      tuple of records keyed by table name, but the decoded JSON may hold an array of any
      length whose elements may be null, so the model keeps both possibilities. */
  datatype ExtractionResult = ExtractionResult(
    tables: Option<seq<Option<map<string, Table>>>>,
    text: Option<seq<string>>)
}
