/** `export_csv`: the rows written to the export file, a header and then one
    row per record in stored order. */
module Export {
  import opened Wrappers
  import opened Records

  /** A field as handed to `csv.writer`: the id, the amount, or a text. */
  datatype Cell = IdCell(id: int) | AmountCell(amount: int) | TextCell(text: string)

  type Row = seq<Cell>

  const ColumnNames: seq<string> := ["id", "date", "title", "category", "amount", "note"]

  /** The header row `id,date,title,category,amount,note`. */
  function HeaderRow(): (row: Row)
    ensures |row| == |ColumnNames|
    ensures forall k :: 0 <= k < |row| ==> row[k] == TextCell(ColumnNames[k])
  {
    seq(|ColumnNames|, k requires 0 <= k < |ColumnNames| => TextCell(ColumnNames[k]))
  }

  /** The row written for a record. */
  function RecordRow(r: Record): Row {
    [IdCell(r.id), TextCell(r.date), TextCell(r.title), TextCell(r.category), AmountCell(r.amount), TextCell(r.note)]
  }

  /** The field of a record that a column name stands for. */
  function Column(r: Record, name: string): Option<Cell> {
    match name
    case "id" => Some(IdCell(r.id))
    case "date" => Some(TextCell(r.date))
    case "title" => Some(TextCell(r.title))
    case "category" => Some(TextCell(r.category))
    case "amount" => Some(AmountCell(r.amount))
    case "note" => Some(TextCell(r.note))
    case _ => None
  }

  /** Each field of a record's row sits under the header naming it. */
  lemma RecordRowFollowsHeader(r: Record)
    ensures |RecordRow(r)| == |HeaderRow()|
    ensures forall k :: 0 <= k < |ColumnNames| ==> Column(r, ColumnNames[k]) == Some(RecordRow(r)[k])
  {
  }

  /** `export_csv` on the loaded collection: nothing is written for an empty
      collection; otherwise the file holds the header and then the row of
      each record, in stored order. */
  method ExportCsv(records: seq<Record>) returns (file: Option<seq<Row>>)
    ensures file.None? <==> records == []
    ensures file.Some? ==> |file.value| == |records| + 1 && file.value[0] == HeaderRow()
    ensures file.Some? ==> forall i :: 0 <= i < |records| ==> file.value[i + 1] == RecordRow(records[i])
  {
    if records == [] {
      return None;
    }
    var rows := [HeaderRow()];
    for i := 0 to |records|
      invariant |rows| == i + 1 && rows[0] == HeaderRow()
      invariant forall j :: 0 <= j < i ==> rows[j + 1] == RecordRow(records[j])
    {
      rows := rows + [RecordRow(records[i])];
    }
    return Some(rows);
  }
}
