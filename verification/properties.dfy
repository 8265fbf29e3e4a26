/**
 * Properties of the connector model: table naming, sheet-id parsing, cursor handling,
 * and the reconciliation that `update` performs sheet by sheet.
 */
module Properties {
  import opened Wrappers
  import opened Text
  import opened Json
  import opened Sheet
  import opened Connector

  // ---------------------------------------------------------------------------
  // Table names
  // ---------------------------------------------------------------------------

  /** Each character of a table name is the lower-cased character, or `_` for a space. */
  lemma FormatTableNameAt(name: string, i: nat)
    requires i < |name|
    ensures FormatTableName(name)[i] == if name[i] == ' ' then '_' else LowerChar(name[i])
  {
    LowerAt(name, i);
    ReplaceCharAt(Lower(name), ' ', '_', i);
  }

  /** Formatting a table name twice changes nothing more. */
  lemma FormatTableNameIdempotent(name: string)
    ensures FormatTableName(FormatTableName(name)) == FormatTableName(name)
  {
    var once := FormatTableName(name);
    var twice := FormatTableName(once);
    forall i | 0 <= i < |name| ensures twice[i] == once[i] {
      FormatTableNameAt(name, i);
      FormatTableNameAt(once, i);
    }
  }

  // ---------------------------------------------------------------------------
  // Sheet ids
  // ---------------------------------------------------------------------------

  /**
   * The parsed sheet ids are the comma-separated pieces of the raw string, stripped, in
   * their order, with exactly the blank pieces left out.
   */
  lemma ParseSheetIdsOrder(raw: string) returns (pieces: seq<string>, pos: seq<nat>)
    ensures pieces == Split(raw, ',') && Join(pieces, ',') == raw
    ensures KeptAt(pos, pieces, ParseSheetIds(raw))
  {
    pieces := Split(raw, ',');
    JoinSplit(raw, ',');
    pos := KeepStrippedOrder(pieces);
  }

  // ---------------------------------------------------------------------------
  // Cursor
  // ---------------------------------------------------------------------------

  /** A run whose stored cursor is dropped behaves exactly as a run with no cursor. */
  lemma DroppedCursorActsAsMissing(config: Config, cursor: StoredCursor, allIds: IdMap, now: int, runStart: int, fetch: string -> Option<SheetData>)
    requires ModeOf(cursor, now) == Full
    ensures UpdatePlan(config, SyncState(cursor, allIds), now, runStart, fetch)
         == UpdatePlan(config, SyncState(Missing, allIds), now, runStart, fetch)
  {
  }

  /**
   * The checkpoint of a finished run makes the next run incremental exactly while fewer
   * than seven days have passed since the (truncated) run start.
   */
  lemma CheckpointResumes(config: Config, state: SyncState, now: int, runStart: int, fetch: string -> Option<SheetData>, later: int)
    requires UpdatePlan(config, state, now, runStart, fetch).outcome == Finished
    ensures var plan := UpdatePlan(config, state, now, runStart, fetch).plan;
      && plan != [] && plan[|plan| - 1].Emit? && plan[|plan| - 1].op.Checkpoint?
      && (ModeOf(At(plan[|plan| - 1].op.cursor), later) == Incremental
          <==> later - CheckpointCursor(runStart) < FullSyncAfterDays * MicrosPerDay)
  {
  }

  // ---------------------------------------------------------------------------
  // Rows
  // ---------------------------------------------------------------------------

  /**
   * The row loop works row by row in order: processing `a + b` yields the upserts of `a`
   * followed by those of `b`, and observes the ids of both.
   */
  lemma {:induction false} ProcessRowsConcat(a: seq<Row>, b: seq<Row>, mapping: Mapping, table: string)
    requires !ProcessRows(a, mapping, table).crashed
    ensures var ra := ProcessRows(a, mapping, table);
      var rb := ProcessRows(b, mapping, table);
      var rab := ProcessRows(a + b, mapping, table);
      && rab.crashed == rb.crashed
      && (!rb.crashed ==> rab == RowsResult(ra.upserts + rb.upserts, ra.observed + rb.observed, false))
  {
    if b == [] {
      assert a + b == a;
    } else {
      var init := b[..|b| - 1];
      assert (a + b)[..|a + b| - 1] == a + init;
      ProcessRowsConcat(a, init, mapping, table);
      var ri := ProcessRows(init, mapping, table);
      var last := b[|b| - 1];
      if !ri.crashed && RowOutcomeOf(last, mapping).Normalized? {
        ConcatAssoc(ProcessRows(a, mapping, table).upserts, ri.upserts, [Upsert(table, RowOutcomeOf(last, mapping).record)]);
      }
    }
  }

  /** A row whose cells fail after its id was read still counts as observed, and is not upserted. */
  lemma FailedRowObserved(rows: seq<Row>, mapping: Mapping, table: string, i: nat)
    requires i < |rows| && !ProcessRows(rows, mapping, table).crashed
    requires RowOutcomeOf(rows[i], mapping) == SkippedObserved
    ensures rows[i].id in ProcessRows(rows, mapping, table).observed
  {
  }

  // ---------------------------------------------------------------------------
  // One sheet
  // ---------------------------------------------------------------------------

  /** A sheet whose fetch fails emits nothing and leaves every id entry as it was. */
  lemma FetchFailureIsolated(mode: Mode, sheetId: string, allIds: IdMap)
    ensures ProcessSheet(mode, sheetId, None, allIds) == SheetResult([], allIds, false)
  {
  }

  /**
   * A sheet processed to the end: its upserts, then (full mode only) the deletes of exactly
   * `previous - observed`; its entry becomes the observed ids in both modes (incremental
   * mode does not merge), and every other entry is untouched. No deleted id stays in the
   * entry; every previous id is either kept or deleted; a first sync deletes nothing; and
   * a sheet without rows deletes every previous id.
   */
  lemma SheetReconciled(mode: Mode, sheetId: string, data: SheetData, allIds: IdMap)
    requires TableFor(sheetId, Some(data)).Some? && ColumnMapping(data.columns).Some?
    requires !ProcessSheet(mode, sheetId, Some(data), allIds).crashed
    ensures var table := TableFor(sheetId, Some(data)).value;
      var rows := ProcessRows(data.rows, ColumnMapping(data.columns).value, table);
      var previous := Previous(allIds, sheetId);
      var deleted := previous - rows.observed;
      var r := ProcessSheet(mode, sheetId, Some(data), allIds);
      && r.plan == EmitAll(rows.upserts) + (if mode == Full then [DeleteEach(table, deleted)] else [])
      && r.allIds == allIds[sheetId := rows.observed]
      && deleted !! r.allIds[sheetId]
      && previous <= r.allIds[sheetId] + deleted
      && (sheetId !in allIds ==> deleted == {})
      && (data.rows == [] ==> deleted == previous)
  {
  }

  /**
   * Re-running a full sync of a sheet on unchanged data upserts the same rows again,
   * deletes nothing and leaves the id map as the first run left it.
   */
  lemma RerunIdempotent(sheetId: string, data: SheetData, allIds: IdMap)
    requires !ProcessSheet(Full, sheetId, Some(data), allIds).crashed
    ensures var first := ProcessSheet(Full, sheetId, Some(data), allIds);
      var second := ProcessSheet(Full, sheetId, Some(data), first.allIds);
      && second.allIds == first.allIds
      && !second.crashed
      && (TableFor(sheetId, Some(data)).Some? && ColumnMapping(data.columns).Some? ==>
            var table := TableFor(sheetId, Some(data)).value;
            second.plan == EmitAll(ProcessRows(data.rows, ColumnMapping(data.columns).value, table).upserts) + [DeleteEach(table, {})])
  {
    var first := ProcessSheet(Full, sheetId, Some(data), allIds);
    if TableFor(sheetId, Some(data)).Some? && ColumnMapping(data.columns).Some? {
      var table := TableFor(sheetId, Some(data)).value;
      var rows := ProcessRows(data.rows, ColumnMapping(data.columns).value, table);
      assert first.allIds == allIds[sheetId := rows.observed];
      assert Previous(first.allIds, sheetId) - rows.observed == {};
      assert first.allIds[sheetId := rows.observed] == first.allIds;
    }
  }

  // ---------------------------------------------------------------------------
  // The sheet loop and the whole run
  // ---------------------------------------------------------------------------

  /** The steps of the sheet loop delete nothing in incremental mode. */
  lemma {:induction false} IncrementalNeverDeletes(sheetIds: seq<string>, fetch: string -> Option<SheetData>, allIds: IdMap)
    ensures forall i | 0 <= i < |ProcessSheets(Incremental, sheetIds, fetch, allIds).plan| ::
      ProcessSheets(Incremental, sheetIds, fetch, allIds).plan[i].Emit?
      && ProcessSheets(Incremental, sheetIds, fetch, allIds).plan[i].op.Upsert?
  {
    if sheetIds != [] {
      var init := sheetIds[..|sheetIds| - 1];
      IncrementalNeverDeletes(init, fetch, allIds);
      var acc := ProcessSheets(Incremental, init, fetch, allIds);
      if !acc.crashed {
        var id := sheetIds[|sheetIds| - 1];
        var s := ProcessSheet(Incremental, id, fetch(id), acc.allIds);
        EmitAllUpserts(s, Incremental, id, fetch(id), acc.allIds);
        var plan := acc.plan + s.plan;
        assert ProcessSheets(Incremental, sheetIds, fetch, allIds).plan == plan;
        forall i | 0 <= i < |plan| ensures plan[i].Emit? && plan[i].op.Upsert? {
          if i >= |acc.plan| {
            var k := i - |acc.plan|;
            assert plan[i] == s.plan[k];
          } else {
            assert plan[i] == acc.plan[i];
          }
        }
      }
    }
  }

  /** The steps of one sheet are upserts, except for a final `DeleteEach` in full mode. */
  lemma EmitAllUpserts(r: SheetResult, mode: Mode, sheetId: string, fetched: Option<SheetData>, allIds: IdMap)
    requires r == ProcessSheet(mode, sheetId, fetched, allIds)
    ensures forall i | 0 <= i < |r.plan| ::
      (r.plan[i].Emit? && r.plan[i].op.Upsert?) || (mode == Full && i == |r.plan| - 1 && r.plan[i].DeleteEach?)
  {
    if TableFor(sheetId, fetched).Some? && ColumnMapping(fetched.value.columns).Some? {
      var table := TableFor(sheetId, fetched).value;
      var rows := ProcessRows(fetched.value.rows, ColumnMapping(fetched.value.columns).value, table);
      EmitAllAt(rows.upserts);
    }
  }

  lemma {:induction false} EmitAllAt(ops: seq<Operation>)
    ensures |EmitAll(ops)| == |ops|
    ensures forall i | 0 <= i < |ops| :: EmitAll(ops)[i] == Emit(ops[i])
  {
    if ops != [] {
      EmitAllAt(ops[1..]);
    }
  }

  /** A sheet id that is not configured keeps its entry through the sheet loop. */
  lemma {:induction false} OtherEntriesUntouched(mode: Mode, sheetIds: seq<string>, fetch: string -> Option<SheetData>, allIds: IdMap, key: string)
    requires key !in sheetIds
    ensures key in ProcessSheets(mode, sheetIds, fetch, allIds).allIds <==> key in allIds
    ensures key in allIds ==> ProcessSheets(mode, sheetIds, fetch, allIds).allIds[key] == allIds[key]
  {
    if sheetIds != [] {
      var init := sheetIds[..|sheetIds| - 1];
      var id := sheetIds[|sheetIds| - 1];
      assert key !in init && key != id by { assert forall x | x in init :: x in sheetIds; }
      OtherEntriesUntouched(mode, init, fetch, allIds, key);
      var acc := ProcessSheets(mode, init, fetch, allIds);
      if !acc.crashed {
        SheetTouchesOwnEntry(mode, id, fetch(id), acc.allIds, key);
      }
    }
  }

  /** One sheet changes no entry but its own. */
  lemma SheetTouchesOwnEntry(mode: Mode, sheetId: string, fetched: Option<SheetData>, allIds: IdMap, key: string)
    requires key != sheetId
    ensures key in ProcessSheet(mode, sheetId, fetched, allIds).allIds <==> key in allIds
    ensures key in allIds ==> ProcessSheet(mode, sheetId, fetched, allIds).allIds[key] == allIds[key]
  {
  }

  /**
   * The sheet loop never drops an entry, and adds entries only for configured sheet ids.
   */
  lemma {:induction false} EntriesAfterLoop(mode: Mode, sheetIds: seq<string>, fetch: string -> Option<SheetData>, allIds: IdMap)
    ensures allIds.Keys <= ProcessSheets(mode, sheetIds, fetch, allIds).allIds.Keys
    ensures forall k | k in ProcessSheets(mode, sheetIds, fetch, allIds).allIds :: k in allIds || k in sheetIds
  {
    if sheetIds != [] {
      var init := sheetIds[..|sheetIds| - 1];
      EntriesAfterLoop(mode, init, fetch, allIds);
      assert forall x | x in init :: x in sheetIds;
      var acc := ProcessSheets(mode, init, fetch, allIds);
      if !acc.crashed {
        var id := sheetIds[|sheetIds| - 1];
        SheetEntries(mode, id, fetch(id), acc.allIds);
      }
    }
  }

  /** One sheet keeps every entry and adds at most its own. */
  lemma SheetEntries(mode: Mode, sheetId: string, fetched: Option<SheetData>, allIds: IdMap)
    ensures allIds.Keys <= ProcessSheet(mode, sheetId, fetched, allIds).allIds.Keys <= allIds.Keys + {sheetId}
  {
  }

  /** The sheet loop emits no checkpoint. */
  lemma {:induction false} NoCheckpointInSheets(mode: Mode, sheetIds: seq<string>, fetch: string -> Option<SheetData>, allIds: IdMap)
    ensures forall i | 0 <= i < |ProcessSheets(mode, sheetIds, fetch, allIds).plan| ::
      !(ProcessSheets(mode, sheetIds, fetch, allIds).plan[i].Emit?
        && ProcessSheets(mode, sheetIds, fetch, allIds).plan[i].op.Checkpoint?)
  {
    if sheetIds != [] {
      var init := sheetIds[..|sheetIds| - 1];
      NoCheckpointInSheets(mode, init, fetch, allIds);
      var acc := ProcessSheets(mode, init, fetch, allIds);
      if !acc.crashed {
        var id := sheetIds[|sheetIds| - 1];
        var s := ProcessSheet(mode, id, fetch(id), acc.allIds);
        EmitAllUpserts(s, mode, id, fetch(id), acc.allIds);
        var plan := acc.plan + s.plan;
        assert ProcessSheets(mode, sheetIds, fetch, allIds).plan == plan;
        forall i | 0 <= i < |plan| ensures !(plan[i].Emit? && plan[i].op.Checkpoint?) {
          if i >= |acc.plan| {
            assert plan[i] == s.plan[i - |acc.plan|];
          } else {
            assert plan[i] == acc.plan[i];
          }
        }
      }
    }
  }

  /**
   * A finished run ends with its only checkpoint, which carries the run-start cursor and
   * the id map the sheet loop left.
   */
  lemma CheckpointLast(config: Config, state: SyncState, now: int, runStart: int, fetch: string -> Option<SheetData>)
    requires UpdatePlan(config, state, now, runStart, fetch).outcome == Finished
    ensures var plan := UpdatePlan(config, state, now, runStart, fetch).plan;
      var loop := ProcessSheets(ModeOf(state.cursor, now), SheetIds(config), fetch, state.allIds);
      && plan != []
      && plan[|plan| - 1] == Emit(Checkpoint(CheckpointCursor(runStart), loop.allIds))
      && (forall i | 0 <= i < |plan| - 1 :: !(plan[i].Emit? && plan[i].op.Checkpoint?))
  {
    var loop := ProcessSheets(ModeOf(state.cursor, now), SheetIds(config), fetch, state.allIds);
    NoCheckpointInSheets(ModeOf(state.cursor, now), SheetIds(config), fetch, state.allIds);
    var plan := UpdatePlan(config, state, now, runStart, fetch).plan;
    assert plan == loop.plan + [Emit(Checkpoint(CheckpointCursor(runStart), loop.allIds))];
    forall i | 0 <= i < |plan| - 1 ensures !(plan[i].Emit? && plan[i].op.Checkpoint?) {
      assert plan[i] == loop.plan[i];
    }
  }

  // ---------------------------------------------------------------------------
  // From steps to operations
  // ---------------------------------------------------------------------------

  /** The (table, id) pairs one step deletes. */
  ghost function StepDeletes(step: Step): set<(string, Value)> {
    match step
    case Emit(op) => if op.Delete? then {(op.table, op.id)} else {}
    case DeleteEach(table, ids) => set x | x in ids :: (table, x)
  }

  /** The (table, id) pairs a step sequence deletes. */
  ghost function PlannedDeletes(plan: seq<Step>): set<(string, Value)> {
    if plan == [] then {} else StepDeletes(plan[0]) + PlannedDeletes(plan[1..])
  }

  /** The (table, id) pairs an operation stream deletes. */
  ghost function DeletedBy(ops: seq<Operation>): set<(string, Value)> {
    set i | 0 <= i < |ops| && ops[i].Delete? :: (ops[i].table, ops[i].id)
  }

  /** An operation stream that carries out a plan deletes exactly what the plan deletes. */
  lemma {:induction false} RealizedDeletes(ops: seq<Operation>, plan: seq<Step>)
    requires Realizes(ops, plan)
    ensures DeletedBy(ops) == PlannedDeletes(plan)
    decreases |plan|
  {
    if plan == [] {
      assert ops == [];
    } else {
      var block, rest := RealizesFirst(ops, plan);
      RealizedDeletes(rest, plan[1..]);
      RealizedStepDeletes(block, plan[0]);
      DeletedByConcat(block, rest);
    }
  }

  /** The operations of one step delete exactly what the step deletes. */
  lemma RealizedStepDeletes(block: seq<Operation>, step: Step)
    requires Realizes(block, [step])
    ensures DeletedBy(block) == StepDeletes(step)
  {
    match step
    case Emit(op) =>
      assert block == [op] by {
        assert block[1..] == [];
      }
    case DeleteEach(table, ids) =>
      assert block[..|ids|] == block by {
        assert block[|ids|..] == [];
      }
      DeletesExactlyMeaning(block, table, ids);
      forall p | p in DeletedBy(block) ensures p in StepDeletes(step) {
        var i :| 0 <= i < |block| && block[i].Delete? && p == (block[i].table, block[i].id);
      }
      forall x | x in ids ensures (table, x) in DeletedBy(block) {
        var i :| 0 <= i < |block| && block[i].id == x;
      }
  }

  lemma DeletedByConcat(a: seq<Operation>, b: seq<Operation>)
    ensures DeletedBy(a + b) == DeletedBy(a) + DeletedBy(b)
  {
    var ab := a + b;
    forall p | p in DeletedBy(ab) ensures p in DeletedBy(a) + DeletedBy(b) {
      var i :| 0 <= i < |ab| && ab[i].Delete? && p == (ab[i].table, ab[i].id);
      if i < |a| {
        assert ab[i] == a[i];
      } else {
        assert ab[i] == b[i - |a|];
      }
    }
    forall p | p in DeletedBy(a) ensures p in DeletedBy(ab) {
      var i :| 0 <= i < |a| && a[i].Delete? && p == (a[i].table, a[i].id);
      assert ab[i] == a[i];
    }
    forall p | p in DeletedBy(b) ensures p in DeletedBy(ab) {
      var i :| 0 <= i < |b| && b[i].Delete? && p == (b[i].table, b[i].id);
      assert ab[i + |a|] == b[i];
    }
  }

  /** An operation stream that carries out a plan without deletes contains no delete. */
  lemma NoDeletesRealized(ops: seq<Operation>, plan: seq<Step>)
    requires Realizes(ops, plan) && PlannedDeletes(plan) == {}
    ensures forall i | 0 <= i < |ops| :: !ops[i].Delete?
  {
    RealizedDeletes(ops, plan);
    forall i | 0 <= i < |ops| ensures !ops[i].Delete? {
      DeletedByAt(ops, i);
    }
  }

  lemma DeletedByAt(ops: seq<Operation>, i: nat)
    requires i < |ops|
    ensures ops[i].Delete? ==> (ops[i].table, ops[i].id) in DeletedBy(ops)
  {
  }

  /** The plan of an incremental run deletes nothing. */
  lemma IncrementalPlanDeletesNothing(config: Config, state: SyncState, now: int, runStart: int, fetch: string -> Option<SheetData>)
    requires ModeOf(state.cursor, now) == Incremental
    ensures PlannedDeletes(UpdatePlan(config, state, now, runStart, fetch).plan) == {}
  {
    var plan := UpdatePlan(config, state, now, runStart, fetch).plan;
    if ConfigValid(config) {
      var loop := ProcessSheets(Incremental, SheetIds(config), fetch, state.allIds);
      IncrementalNeverDeletes(SheetIds(config), fetch, state.allIds);
      NoDeletesPlanned(loop.plan);
      if !loop.crashed {
        var checkpoint := Emit(Checkpoint(CheckpointCursor(runStart), loop.allIds));
        NoDeletesPlanned([checkpoint]);
        PlannedDeletesConcat(loop.plan, [checkpoint]);
      }
    }
  }

  lemma {:induction false} PlannedDeletesConcat(a: seq<Step>, b: seq<Step>)
    ensures PlannedDeletes(a + b) == PlannedDeletes(a) + PlannedDeletes(b)
  {
    if a != [] {
      PlannedDeletesConcat(a[1..], b);
      assert (a + b)[1..] == a[1..] + b;
    } else {
      assert a + b == b;
    }
  }

  /** The operations of an incremental run delete nothing. */
  lemma IncrementalRunDeletesNothing(config: Config, state: SyncState, now: int, runStart: int, fetch: string -> Option<SheetData>, ops: seq<Operation>)
    requires ModeOf(state.cursor, now) == Incremental
    requires Realizes(ops, UpdatePlan(config, state, now, runStart, fetch).plan)
    ensures forall i | 0 <= i < |ops| :: !ops[i].Delete?
  {
    IncrementalPlanDeletesNothing(config, state, now, runStart, fetch);
    NoDeletesRealized(ops, UpdatePlan(config, state, now, runStart, fetch).plan);
  }

  /** A plan of emitted operations other than deletes plans no delete. */
  lemma {:induction false} NoDeletesPlanned(plan: seq<Step>)
    requires forall i | 0 <= i < |plan| :: plan[i].Emit? && !plan[i].op.Delete?
    ensures PlannedDeletes(plan) == {}
  {
    if plan != [] {
      NoDeletesPlanned(plan[1..]);
    }
  }
}
