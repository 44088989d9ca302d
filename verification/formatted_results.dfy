/** Which view `FormattedResults` renders for a successful extraction. */
module FormattedResults {
  import opened Wrappers
  import opened AppTypes

  /** The four shapes the result panel can take. */
  datatype View = NoContent | TextOnly | TablesOnly | TextAndTablesTabs

  /** `hasText`: the text list is present and holds at least one paragraph. */
  predicate HasText(d: ExtractionResult) {
    d.text.Some? && |d.text.value| > 0
  }

  /** `hasTables`: the tables array is present, its first element is present (not null),
      and that record has at least one key. */
  predicate HasTables(d: ExtractionResult) {
    match d.tables
    case None => false
    case Some(records) => |records| > 0 && records[0].Some? && |records[0].value| > 0
  }

  /** The view shows the paragraph list (alone or in the "Text" tab). */
  predicate ShowsText(v: View) {
    v == TextOnly || v == TextAndTablesTabs
  }

  /** The view shows the named tables (alone or in the "Tables" tab). */
  predicate ShowsTables(v: View) {
    v == TablesOnly || v == TextAndTablesTabs
  }

  /** The classification of `FormattedResults`: text is shown exactly when there is text,
      tables exactly when there are tables, tabs only when both are, and the
      "No content extracted" message only when neither is. */
  function Classify(d: ExtractionResult): (v: View)
    ensures ShowsText(v) <==> HasText(d)
    ensures ShowsTables(v) <==> HasTables(d)
    ensures v == NoContent <==> !HasText(d) && !HasTables(d)
    ensures v == TextAndTablesTabs <==> HasText(d) && HasTables(d)
  {
    var hasText := HasText(d);
    var hasTables := HasTables(d);
    if !hasText && !hasTables then NoContent
    else if hasText && !hasTables then TextOnly
    else if hasTables && !hasText then TablesOnly
    else TextAndTablesTabs
  }

  /** Present-but-empty containers count as absent: when the paragraph list is absent or
      empty, and the tables array is absent, empty, or starts with a null or keyless record,
      the view is "No content". */
  lemma EmptyContainersShowNothing(d: ExtractionResult)
    requires d.text == None || d.text == Some([])
    requires d.tables == None || d.tables == Some([]) || (d.tables.Some? && |d.tables.value| > 0 && d.tables.value[0] in {None, Some(map[])})
    ensures Classify(d) == NoContent
  {
  }

  /** Only the first record of the tables array decides: later records are never looked at. */
  lemma OnlyFirstRecordCounts(d: ExtractionResult, rest: seq<Option<map<string, Table>>>)
    requires d.tables.Some? && |d.tables.value| > 0
    ensures Classify(d) == Classify(d.(tables := Some([d.tables.value[0]] + rest)))
  {
  }
}
