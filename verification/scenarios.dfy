/**
 * Worked runs of the connector on small concrete inputs: a full sync that reconciles
 * deletions, an incremental sync that replaces (and does not merge) the stored ids, and a
 * failed fetch that leaves the stored ids alone while the run still checkpoints.
 */
module Scenarios {
  import opened Wrappers
  import opened Text
  import opened Json
  import opened Sheet
  import opened Connector
  import opened Properties

  /** A row with the given numeric id and no cells. */
  function PlainRow(id: int): Row {
    Row(Num(id), Num(id), Bool(false), Null, Null, [])
  }

  /** The sheet "Budget 2024" with rows 2, 3 and 4 and no columns. */
  function Budget(): SheetData {
    SheetData(Some(Str("Budget 2024")), [], [PlainRow(2), PlainRow(3), PlainRow(4)])
  }

  /** The same sheet after an incremental edit that only returns row 4. */
  function BudgetChanged(): SheetData {
    SheetData(Some(Str("Budget 2024")), [], [PlainRow(4)])
  }

  lemma BudgetTableName()
    ensures FormatTableName("Budget 2024") == "budget_2024"
  {
    FormattedPointwise("Budget 2024", "budget_2024");
  }

  /** Character by character, `name` formats to `table`. */
  lemma FormattedPointwise(name: string, table: string)
    requires |name| == |table|
    requires forall i | 0 <= i < |name| :: table[i] == if name[i] == ' ' then '_' else LowerChar(name[i])
    ensures FormatTableName(name) == table
  {
    forall i | 0 <= i < |name| ensures FormatTableName(name)[i] == table[i] {
      FormatTableNameAt(name, i);
    }
  }

  lemma BudgetTableFor(data: SheetData)
    requires data.name == Some(Str("Budget 2024"))
    ensures TableFor("111", Some(data)) == Some("budget_2024")
  {
    BudgetTableName();
  }

  lemma BudgetRows()
    ensures ProcessRows(Budget().rows, map[], "budget_2024")
      == RowsResult([Upsert("budget_2024", Metadata(PlainRow(2))),
                     Upsert("budget_2024", Metadata(PlainRow(3))),
                     Upsert("budget_2024", Metadata(PlainRow(4)))],
                    {Num(2), Num(3), Num(4)}, false)
  {
    var rows := Budget().rows;
    assert rows[..2][..1] == [PlainRow(2)];
    assert ProcessRows([PlainRow(2)], map[], "budget_2024")
      == RowsResult([Upsert("budget_2024", Metadata(PlainRow(2)))], {Num(2)}, false);
    assert rows[..2] == [PlainRow(2), PlainRow(3)];
    assert ProcessRows(rows[..2], map[], "budget_2024")
      == RowsResult([Upsert("budget_2024", Metadata(PlainRow(2))),
                     Upsert("budget_2024", Metadata(PlainRow(3)))],
                    {Num(2), Num(3)}, false);
  }

  /** How a sheet whose fetch, name, columns and rows all succeed is synced. */
  lemma SheetSucceeds(mode: Mode, sheetId: string, data: SheetData, allIds: IdMap, table: string, rows: RowsResult)
    requires TableFor(sheetId, Some(data)) == Some(table)
    requires ColumnMapping(data.columns) == Some(map[])
    requires ProcessRows(data.rows, map[], table) == rows && !rows.crashed
    ensures ProcessSheet(mode, sheetId, Some(data), allIds)
      == SheetResult(EmitAll(rows.upserts) + (if mode == Full then [DeleteEach(table, Previous(allIds, sheetId) - rows.observed)] else []),
                     allIds[sheetId := rows.observed], false)
  {
  }

  lemma BudgetChangedRows()
    ensures ProcessRows(BudgetChanged().rows, map[], "budget_2024")
      == RowsResult([Upsert("budget_2024", Metadata(PlainRow(4)))], {Num(4)}, false)
  {
  }

  /** Three emitted upserts followed by one more step. */
  lemma EmitThreeThen(u: Operation, v: Operation, w: Operation, step: Step)
    ensures EmitAll([u, v, w]) + [step] == [Emit(u), Emit(v), Emit(w), step]
  {
    assert EmitAll([u, v, w]) == [Emit(u)] + EmitAll([v, w]);
    assert EmitAll([v, w]) == [Emit(v)] + EmitAll([w]);
  }

  /** One emitted upsert and no further step. */
  lemma EmitOne(u: Operation)
    ensures EmitAll([u]) + [] == [Emit(u)]
  {
  }

  /** Overwriting the only entry of a one-entry map. */
  lemma OverwriteSingle(key: string, before: set<Value>, after: set<Value>)
    ensures map[key := before][key := after] == map[key := after]
  {
  }

  /** A full sync of Budget() whose stored ids are `previous`, of which `gone` are not rows. */
  lemma BudgetFullSheet(previous: set<Value>, gone: set<Value>)
    requires gone == previous - {Num(2), Num(3), Num(4)}
    ensures ProcessSheet(Full, "111", Some(Budget()), map["111" := previous])
      == SheetResult(
           [Emit(Upsert("budget_2024", Metadata(PlainRow(2)))),
            Emit(Upsert("budget_2024", Metadata(PlainRow(3)))),
            Emit(Upsert("budget_2024", Metadata(PlainRow(4)))),
            DeleteEach("budget_2024", gone)],
           map["111" := {Num(2), Num(3), Num(4)}],
           false)
  {
    BudgetTableFor(Budget());
    BudgetRows();
    SheetSucceeds(Full, "111", Budget(), map["111" := previous], "budget_2024",
      ProcessRows(Budget().rows, map[], "budget_2024"));
    EmitThreeThen(Upsert("budget_2024", Metadata(PlainRow(2))),
                  Upsert("budget_2024", Metadata(PlainRow(3))),
                  Upsert("budget_2024", Metadata(PlainRow(4))),
                  DeleteEach("budget_2024", gone));
    OverwriteSingle("111", previous, {Num(2), Num(3), Num(4)});
  }

  /** An incremental sync of BudgetChanged() whose stored ids are `previous`. */
  lemma BudgetIncrementalSheet(previous: set<Value>)
    ensures ProcessSheet(Incremental, "111", Some(BudgetChanged()), map["111" := previous])
      == SheetResult([Emit(Upsert("budget_2024", Metadata(PlainRow(4))))], map["111" := {Num(4)}], false)
  {
    BudgetTableFor(BudgetChanged());
    BudgetChangedRows();
    SheetSucceeds(Incremental, "111", BudgetChanged(), map["111" := previous], "budget_2024",
      ProcessRows(BudgetChanged().rows, map[], "budget_2024"));
    EmitOne(Upsert("budget_2024", Metadata(PlainRow(4))));
    OverwriteSingle("111", previous, {Num(4)});
  }

  /**
   * A full sync of sheet 111 whose stored ids are {1, 2, 3}: rows 2, 3 and 4 are upserted
   * in order, row 1 is deleted, and the entry becomes {2, 3, 4}.
   */
  lemma BudgetFullSync()
    ensures ProcessSheet(Full, "111", Some(Budget()), map["111" := {Num(1), Num(2), Num(3)}])
      == SheetResult(
           [Emit(Upsert("budget_2024", Metadata(PlainRow(2)))),
            Emit(Upsert("budget_2024", Metadata(PlainRow(3)))),
            Emit(Upsert("budget_2024", Metadata(PlainRow(4)))),
            DeleteEach("budget_2024", {Num(1)})],
           map["111" := {Num(2), Num(3), Num(4)}],
           false)
  {
    assert {Num(1), Num(2), Num(3)} - {Num(2), Num(3), Num(4)} == {Num(1)};
    BudgetFullSheet({Num(1), Num(2), Num(3)}, {Num(1)});
  }

  /**
   * An incremental sync of the same sheet that sees only row 4: nothing is deleted and the
   * entry becomes {4}, replacing the stored ids instead of adding to them.
   */
  lemma BudgetIncrementalSync()
    ensures ProcessSheet(Incremental, "111", Some(BudgetChanged()), map["111" := {Num(1), Num(2), Num(3)}])
      == SheetResult(
           [Emit(Upsert("budget_2024", Metadata(PlainRow(4))))],
           map["111" := {Num(4)}],
           false)
  {
    BudgetIncrementalSheet({Num(1), Num(2), Num(3)});
  }

  /**
   * Because an incremental run replaces the stored ids with the rows it saw, a row deleted
   * upstream while it was not among them escapes the next full sync. Here the incremental
   * run of `BudgetIncrementalSync` leaves {4}; row 1, stored before it and absent from the
   * sheet afterwards, is then never deleted.
   */
  lemma IncrementalThenFullMissesDelete()
    ensures forall i | 0 <= i < |Budget().rows| :: Budget().rows[i].id != Num(1)
    ensures ProcessSheet(Full, "111", Some(Budget()), map["111" := {Num(4)}])
      == SheetResult(
           [Emit(Upsert("budget_2024", Metadata(PlainRow(2)))),
            Emit(Upsert("budget_2024", Metadata(PlainRow(3)))),
            Emit(Upsert("budget_2024", Metadata(PlainRow(4)))),
            DeleteEach("budget_2024", {})],
           map["111" := {Num(2), Num(3), Num(4)}],
           false)
  {
    RowOneAbsent();
    BudgetFullSheet({Num(4)}, {});
  }

  /** Row 1 is not among the rows of Budget(), and none of its stored ids {4} is gone. */
  lemma RowOneAbsent()
    ensures forall i | 0 <= i < |Budget().rows| :: Budget().rows[i].id != Num(1)
    ensures {} == {Num(4)} - {Num(2), Num(3), Num(4)}
  {
  }

  lemma PaddedIdStrips()
    ensures Strip(" 111 ") == "111"
  {
    assert StripStart(" 111 ") == "111 " by {
      assert " 111 "[1..] == "111 ";
    }
    assert StripEnd("111 ") == "111" by {
      assert "111 "[..3] == "111";
    }
  }

  /** A string without the separator splits into itself alone. */
  lemma {:induction false} SplitWithoutSep(s: string, sep: char)
    requires sep !in s
    ensures Split(s, sep) == [s]
  {
    if s != [] {
      SplitWithoutSep(s[1..], sep);
      assert [s[0]] + s[1..] == s;
    }
  }

  /** A padded single id is read as that id. */
  lemma PaddedConfig()
    ensures SheetIds(Config(Some("token"), Some(" 111 "))) == ["111"]
    ensures ConfigValid(Config(Some("token"), Some(" 111 ")))
  {
    SplitWithoutSep(" 111 ", ',');
    PaddedIdStrips();
    assert KeepStripped([" 111 "]) == KeepStripped([]) + ["111"];
  }

  lemma FailedFetchLoop(mode: Mode, sheetId: string, fetch: string -> Option<SheetData>, allIds: IdMap)
    requires fetch(sheetId).None?
    ensures ProcessSheets(mode, [sheetId], fetch, allIds) == SheetResult([], allIds, false)
  {
    assert [sheetId][..0] == [];
  }

  /** A valid configuration of one sheet id whose fetch fails: the run only checkpoints. */
  lemma OnlySheetFails(config: Config, state: SyncState, now: int, runStart: int,
                       fetch: string -> Option<SheetData>, sheetId: string)
    requires ConfigValid(config) && SheetIds(config) == [sheetId] && fetch(sheetId).None?
    ensures UpdatePlan(config, state, now, runStart, fetch)
      == RunPlan([Emit(Checkpoint(CheckpointCursor(runStart), state.allIds))], Finished)
  {
    FailedFetchLoop(ModeOf(state.cursor, now), sheetId, fetch, state.allIds);
  }

  /**
   * A run whose only sheet cannot be fetched emits nothing for it, keeps its stored ids and
   * still checkpoints the truncated run start.
   */
  lemma FetchFailureStillCheckpoints(now: int, runStart: int)
    ensures UpdatePlan(Config(Some("token"), Some(" 111 ")), SyncState(Missing, map["111" := {Num(1)}]),
                       now, runStart, (id: string) => None)
      == RunPlan([Emit(Checkpoint(CheckpointCursor(runStart), map["111" := {Num(1)}]))], Finished)
  {
    PaddedConfig();
    OnlySheetFails(Config(Some("token"), Some(" 111 ")), SyncState(Missing, map["111" := {Num(1)}]),
      now, runStart, (id: string) => None, "111");
  }

  /**
   * A cursor seven days less one microsecond old keeps the run incremental; seven days make
   * it full; a blank cursor never expires.
   */
  lemma StalenessBoundary()
    ensures ModeOf(At(0), 7 * MicrosPerDay - 1) == Incremental
    ensures ModeOf(At(0), 7 * MicrosPerDay) == Full
    ensures ModeOf(Blank, 365 * MicrosPerDay) == Incremental
  {
  }
}
