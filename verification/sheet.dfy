/**
 * One fetched sheet and the normalisation of its rows into flat records:
 * the column-id to title map and the per-row, per-cell loop of `update`.
 */
module Sheet {
  import opened Wrappers
  import opened Json

  /** An entry of the response's `columns` list; `MalformedColumn` lacks `id` or `title` or is no object. */
  datatype Column = Column(id: Value, title: Value) | MalformedColumn

  /**
   * An entry of a row's `cells` list (a missing `columnId` or `value` reads as `Null`);
   * `MalformedCell` is an entry that is no object. A `cells` value Python cannot iterate,
   * or a non-empty string or object, fails the same way and is written as a list holding
   * one `MalformedCell`; an empty string or object iterates as nothing and is written as `[]`.
   */
  datatype Cell = Cell(columnId: Value, value: Value) | MalformedCell

  /** An entry of the response's `rows` list; missing fields read as `Null`. */
  datatype Row =
    | Row(id: Value, rowNumber: Value, expanded: Value, createdAt: Value, modifiedAt: Value, cells: seq<Cell>)
    | NotAnObject

  /**
   * A successful fetch: the `name` field if present, and the `columns` and `rows` lists
   * (absent lists are empty; a present value Python cannot iterate, or a non-empty string
   * or object, is written as a list whose only entry is malformed, which fails at the same
   * point; an empty string or object iterates as nothing and is written as an empty list).
   */
  datatype SheetData = SheetData(name: Option<Value>, columns: seq<Column>, rows: seq<Row>)

  /** Column id to column title. */
  type Mapping = map<Value, Value>

  /** A normalised row: field name to value. */
  type Record = map<Value, Value>

  // ---------------------------------------------------------------------------
  // Column map
  // ---------------------------------------------------------------------------

  /** `col['id']` and `col['title']` exist and the id can be a dictionary key. */
  predicate ColumnUsable(c: Column) {
    c.Column? && Hashable(c.id)
  }

  /**
   * The dictionary comprehension building the column map; `None` when it raises
   * (a column without `id` or `title`, or with an unhashable id).
   */
  function ColumnMapping(columns: seq<Column>): (m: Option<Mapping>)
    ensures m.Some? <==> forall i | 0 <= i < |columns| :: ColumnUsable(columns[i])
    ensures m.Some? ==> m.value.Keys == set i | 0 <= i < |columns| :: columns[i].id
  {
    if columns == [] then Some(map[])
    else
      var init := columns[..|columns| - 1];
      var last := columns[|columns| - 1];
      match ColumnMapping(init)
      case None =>
        assert !ColumnUsable(init[0]) || exists i | 0 <= i < |init| :: !ColumnUsable(init[i]);
        None
      case Some(m) =>
        if ColumnUsable(last) then
          assert (set i | 0 <= i < |columns| :: columns[i].id)
              == (set i | 0 <= i < |init| :: init[i].id) + {last.id};
          Some(m[last.id := last.title])
        else None
  }

  /** When a column id occurs more than once, the title of its last column wins. */
  lemma {:induction false} MappingLastWins(columns: seq<Column>, i: nat)
    requires ColumnMapping(columns).Some?
    requires i < |columns|
    requires forall j | i < j < |columns| :: columns[j].id != columns[i].id
    ensures ColumnMapping(columns).value[columns[i].id] == columns[i].title
  {
    if i < |columns| - 1 {
      MappingLastWins(columns[..|columns| - 1], i);
    }
  }

  // ---------------------------------------------------------------------------
  // Cells
  // ---------------------------------------------------------------------------

  /**
   * The title under which a cell is written into the record: its column's title when the
   * column id is in the map and the title is truthy; `None` when the cell is dropped.
   */
  function ResolvedTitle(mapping: Mapping, cell: Cell): Option<Value> {
    if cell.Cell? && cell.columnId in mapping && Truthy(mapping[cell.columnId])
    then Some(mapping[cell.columnId])
    else None
  }

  /** Whether processing the cell raises: it is no object, its column id is unhashable, or it resolves to an unhashable title. */
  predicate CellFails(mapping: Mapping, cell: Cell) {
    || cell.MalformedCell?
    || !Hashable(cell.columnId)
    || (ResolvedTitle(mapping, cell).Some? && !Hashable(ResolvedTitle(mapping, cell).value))
  }

  /** One iteration of the cell loop on the record built so far; `None` when it raises. */
  function ApplyCell(rec: Record, mapping: Mapping, cell: Cell): Option<Record> {
    match cell
    case MalformedCell => None
    case Cell(columnId, value) =>
      if !Hashable(columnId) then None
      else if columnId !in mapping || !Truthy(mapping[columnId]) then Some(rec)
      else if !Hashable(mapping[columnId]) then None
      else Some(rec[mapping[columnId] := value])
  }

  /** The whole cell loop: `None` exactly when some cell raises. */
  function ApplyCells(rec: Record, mapping: Mapping, cells: seq<Cell>): (r: Option<Record>)
    ensures r.None? <==> exists i | 0 <= i < |cells| :: CellFails(mapping, cells[i])
  {
    if cells == [] then Some(rec)
    else
      var init := cells[..|cells| - 1];
      var last := cells[|cells| - 1];
      assert forall i | 0 <= i < |init| :: init[i] == cells[i];
      match ApplyCells(rec, mapping, init)
      case None => None
      case Some(acc) => ApplyCell(acc, mapping, last)
  }

  /** No cell after position `i` resolves to the title cell `i` resolves to. */
  predicate LastForTitle(mapping: Mapping, cells: seq<Cell>, i: nat)
    requires i < |cells|
  {
    forall j | i < j < |cells| :: ResolvedTitle(mapping, cells[j]) != ResolvedTitle(mapping, cells[i])
  }

  /** No cell resolves to title `k`. */
  predicate NoCellFor(mapping: Mapping, cells: seq<Cell>, k: Value) {
    forall i | 0 <= i < |cells| :: ResolvedTitle(mapping, cells[i]) != Some(k)
  }

  /**
   * What the cell loop writes: the keys of the start record plus every resolved title;
   * each title holds the value of the last cell resolving to it; every other key keeps
   * its start value. Unmapped columns and falsy titles add nothing.
   */
  lemma ApplyCellsContents(rec: Record, mapping: Mapping, cells: seq<Cell>)
    requires ApplyCells(rec, mapping, cells).Some?
    ensures var out := ApplyCells(rec, mapping, cells).value;
      && (forall k :: k in out <==> k in rec || !NoCellFor(mapping, cells, k))
      && (forall i | 0 <= i < |cells| && ResolvedTitle(mapping, cells[i]).Some? && LastForTitle(mapping, cells, i) ::
            out[ResolvedTitle(mapping, cells[i]).value] == cells[i].value)
      && (forall k | k in rec && NoCellFor(mapping, cells, k) :: out[k] == rec[k])
  {
    ApplyCellsKeys(rec, mapping, cells);
    ApplyCellsLastWins(rec, mapping, cells);
    ApplyCellsKeeps(rec, mapping, cells);
  }

  /** The cell loop one cell further on. */
  lemma ApplyCellsSnoc(rec: Record, mapping: Mapping, cells: seq<Cell>)
    requires cells != [] && ApplyCells(rec, mapping, cells).Some?
    ensures ApplyCells(rec, mapping, cells[..|cells| - 1]).Some?
    ensures var acc := ApplyCells(rec, mapping, cells[..|cells| - 1]).value;
      var last := cells[|cells| - 1];
      ApplyCells(rec, mapping, cells).value
        == if ResolvedTitle(mapping, last).Some? then acc[ResolvedTitle(mapping, last).value := last.value] else acc
    ensures forall i | 0 <= i < |cells| - 1 :: cells[..|cells| - 1][i] == cells[i]
  {
  }

  lemma {:induction false} ApplyCellsKeys(rec: Record, mapping: Mapping, cells: seq<Cell>)
    requires ApplyCells(rec, mapping, cells).Some?
    ensures forall k :: k in ApplyCells(rec, mapping, cells).value <==> k in rec || !NoCellFor(mapping, cells, k)
  {
    if cells != [] {
      var init := cells[..|cells| - 1];
      var last := cells[|cells| - 1];
      ApplyCellsSnoc(rec, mapping, cells);
      ApplyCellsKeys(rec, mapping, init);
      forall k ensures NoCellFor(mapping, cells, k) <==> NoCellFor(mapping, init, k) && ResolvedTitle(mapping, last) != Some(k) {
      }
    }
  }

  lemma {:induction false} ApplyCellsLastWins(rec: Record, mapping: Mapping, cells: seq<Cell>)
    requires ApplyCells(rec, mapping, cells).Some?
    ensures forall i | 0 <= i < |cells| && ResolvedTitle(mapping, cells[i]).Some? && LastForTitle(mapping, cells, i) ::
      var out := ApplyCells(rec, mapping, cells).value;
      ResolvedTitle(mapping, cells[i]).value in out && out[ResolvedTitle(mapping, cells[i]).value] == cells[i].value
  {
    if cells != [] {
      var init := cells[..|cells| - 1];
      ApplyCellsSnoc(rec, mapping, cells);
      ApplyCellsLastWins(rec, mapping, init);
      forall i | 0 <= i < |init| && ResolvedTitle(mapping, cells[i]).Some? && LastForTitle(mapping, cells, i)
        ensures LastForTitle(mapping, init, i)
      {
      }
    }
  }

  lemma {:induction false} ApplyCellsKeeps(rec: Record, mapping: Mapping, cells: seq<Cell>)
    requires ApplyCells(rec, mapping, cells).Some?
    ensures forall k | k in rec && NoCellFor(mapping, cells, k) ::
      k in ApplyCells(rec, mapping, cells).value && ApplyCells(rec, mapping, cells).value[k] == rec[k]
  {
    if cells != [] {
      var init := cells[..|cells| - 1];
      ApplyCellsSnoc(rec, mapping, cells);
      ApplyCellsKeeps(rec, mapping, init);
      forall k | NoCellFor(mapping, cells, k) ensures NoCellFor(mapping, init, k) {
      }
    }
  }

  // ---------------------------------------------------------------------------
  // Rows
  // ---------------------------------------------------------------------------

  /** The five metadata fields every record starts with. */
  function Metadata(row: Row): (rec: Record)
    requires row.Row?
  {
    map[Str("id") := row.id,
        Str("row_number") := row.rowNumber,
        Str("expanded") := row.expanded,
        Str("created_at") := row.createdAt,
        Str("modified_at") := row.modifiedAt]
  }

  /** What happens to one row of the row loop. */
  datatype RowOutcome =
    | Normalized(record: Record)  // upserted
    | SkippedUnobserved           // raised before its id joined the observed set
    | SkippedObserved             // raised in the cell loop, after its id joined the observed set
    | Crashed                     // the row is no object: the error handler itself raises

  function RowOutcomeOf(row: Row, mapping: Mapping): RowOutcome {
    match row
    case NotAnObject => Crashed
    case Row(id, _, _, _, _, cells) =>
      if !Hashable(id) then SkippedUnobserved
      else match ApplyCells(Metadata(row), mapping, cells)
        case None => SkippedObserved
        case Some(rec) => Normalized(rec)
  }

  /**
   * A normalised record holds exactly the five metadata keys and the resolved titles;
   * a title holds its last cell's value, and a metadata key keeps the row's field
   * unless a column with that title overwrote it.
   */
  lemma RecordContents(row: Row, mapping: Mapping)
    requires RowOutcomeOf(row, mapping).Normalized?
    ensures var rec := RowOutcomeOf(row, mapping).record;
      && (forall k :: k in rec <==>
            k in {Str("id"), Str("row_number"), Str("expanded"), Str("created_at"), Str("modified_at")}
            || !NoCellFor(mapping, row.cells, k))
      && (forall i | 0 <= i < |row.cells| && ResolvedTitle(mapping, row.cells[i]).Some? && LastForTitle(mapping, row.cells, i) ::
            rec[ResolvedTitle(mapping, row.cells[i]).value] == row.cells[i].value)
      && (NoCellFor(mapping, row.cells, Str("id")) ==> rec[Str("id")] == row.id)
      && (NoCellFor(mapping, row.cells, Str("row_number")) ==> rec[Str("row_number")] == row.rowNumber)
      && (NoCellFor(mapping, row.cells, Str("expanded")) ==> rec[Str("expanded")] == row.expanded)
      && (NoCellFor(mapping, row.cells, Str("created_at")) ==> rec[Str("created_at")] == row.createdAt)
      && (NoCellFor(mapping, row.cells, Str("modified_at")) ==> rec[Str("modified_at")] == row.modifiedAt)
  {
    var start := Metadata(row);
    assert start.Keys == {Str("id"), Str("row_number"), Str("expanded"), Str("created_at"), Str("modified_at")};
    ApplyCellsContents(start, mapping, row.cells);
  }

  /** The cell loop of the row body, building the record field by field. */
  method BuildRecord(row: Row, mapping: Mapping) returns (rec: Option<Record>)
    requires row.Row?
    ensures rec == ApplyCells(Metadata(row), mapping, row.cells)
  {
    var fields := Metadata(row);
    for i := 0 to |row.cells|
      invariant ApplyCells(Metadata(row), mapping, row.cells[..i]) == Some(fields)
    {
      assert row.cells[..i + 1][..i] == row.cells[..i];
      match row.cells[i]
      case MalformedCell =>
        return None;
      case Cell(columnId, value) =>
        if !Hashable(columnId) {
          return None;
        }
        if columnId in mapping {
          var title := mapping[columnId];
          if Truthy(title) {
            if !Hashable(title) {
              return None;
            }
            fields := fields[title := value];
          }
        }
    }
    assert row.cells[..|row.cells|] == row.cells;
    rec := Some(fields);
  }
}
