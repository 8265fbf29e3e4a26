/**
 * The connector's `schema` and `update` entry points. `update` is a generator in the
 * source; here it is a method that returns the operations it yields, in order, with the
 * way the run ended. It is proved against `UpdatePlan`, a specification function whose
 * properties are proved in module `Properties`.
 *
 * Network requests, the clock and ISO-8601 parsing are inputs: a fetch is a function from
 * sheet id to `Option<SheetData>` (`None` when the request, its status check or its JSON
 * decoding raises), instants are integers in microseconds, and the stored cursor arrives
 * already classified as a `StoredCursor`.
 */
module Connector {
  import opened Wrappers
  import opened Text
  import opened Json
  import opened Sheet

  // ---------------------------------------------------------------------------
  // Configuration
  // ---------------------------------------------------------------------------

  /** The two configuration entries read: `smartsheet_api_token` and `smartsheet_sheet_ids`. */
  datatype Config = Config(apiToken: Option<string>, sheetIdsRaw: Option<string>)

  /** `[s.strip() for s in pieces if s.strip()]`. */
  function KeepStripped(pieces: seq<string>): (ids: seq<string>)
    ensures |ids| <= |pieces|
    ensures forall i | 0 <= i < |ids| :: ids[i] != [] && !IsSpace(ids[i][0]) && !IsSpace(ids[i][|ids[i]| - 1])
  {
    if pieces == [] then []
    else
      var t := Strip(pieces[|pieces| - 1]);
      KeepStripped(pieces[..|pieces| - 1]) + (if t != [] then [t] else [])
  }

  /** The comma-separated sheet ids, stripped, blank ones dropped. */
  function ParseSheetIds(raw: string): (ids: seq<string>)
    ensures forall i | 0 <= i < |ids| :: ids[i] != [] && !IsSpace(ids[i][0]) && !IsSpace(ids[i][|ids[i]| - 1])
    ensures forall i | 0 <= i < |ids| :: ',' !in ids[i]
  {
    var pieces := Split(raw, ',');
    var ids := KeepStripped(pieces);
    assert forall i | 0 <= i < |ids| :: ',' !in ids[i] by {
      var pos := KeepStrippedOrder(pieces);
      assert KeptAt(pos, pieces, ids);
      forall i | 0 <= i < |ids| ensures ',' !in ids[i] {
        var pre, post := StripParts(pieces[pos[i]]);
        assert pieces[pos[i]] == pre + ids[i] + post;
      }
    }
    ids
  }

  /**
   * `pos` lists, increasing, positions of `pieces` such that `kept` is the stripped pieces
   * at those positions, and every piece that is not blank has its position listed.
   */
  ghost predicate KeptAt(pos: seq<nat>, pieces: seq<string>, kept: seq<string>) {
    && |pos| == |kept|
    && (forall k | 0 <= k < |pos| :: pos[k] < |pieces| && kept[k] == Strip(pieces[pos[k]]))
    && (forall k, l | 0 <= k < l < |pos| :: pos[k] < pos[l])
    && (forall j | 0 <= j < |pieces| && Strip(pieces[j]) != [] :: j in pos)
  }

  /**
   * `KeepStripped` keeps the order of the pieces: the returned positions are increasing,
   * and it keeps exactly the pieces that are not blank.
   */
  lemma {:induction false} KeepStrippedOrder(pieces: seq<string>) returns (pos: seq<nat>)
    ensures KeptAt(pos, pieces, KeepStripped(pieces))
  {
    if pieces == [] {
      pos := [];
    } else {
      var rest := KeepStrippedOrder(pieces[..|pieces| - 1]);
      pos := KeptAtSnoc(pieces, rest);
    }
  }

  /** One more piece at the end keeps `KeptAt`, with its position appended when it is kept. */
  lemma KeptAtSnoc(pieces: seq<string>, rest: seq<nat>) returns (pos: seq<nat>)
    requires pieces != []
    requires KeptAt(rest, pieces[..|pieces| - 1], KeepStripped(pieces[..|pieces| - 1]))
    ensures KeptAt(pos, pieces, KeepStripped(pieces))
  {
    var n := |pieces| - 1;
    var t := Strip(pieces[n]);
    pos := rest + (if t != [] then [n] else []);
    KeptAtSnocCovers(pieces, rest, pos);
    KeptAtSnocOrdered(pieces, rest, pos);
    KeptAtSnocValues(pieces, rest, pos);
  }

  /** Every piece that is not blank has its position among `rest` or appended. */
  lemma KeptAtSnocCovers(pieces: seq<string>, rest: seq<nat>, pos: seq<nat>)
    requires pieces != []
    requires KeptAt(rest, pieces[..|pieces| - 1], KeepStripped(pieces[..|pieces| - 1]))
    requires pos == rest + (if Strip(pieces[|pieces| - 1]) != [] then [|pieces| - 1] else [])
    ensures forall j | 0 <= j < |pieces| && Strip(pieces[j]) != [] :: j in pos
  {
    var n := |pieces| - 1;
    forall j | 0 <= j < |pieces| && Strip(pieces[j]) != [] ensures j in pos {
      if j < n {
        assert pieces[..n][j] == pieces[j];
        assert j in rest;
      } else {
        assert pos[|pos| - 1] == n;
      }
    }
  }

  /** The appended position follows every position of `rest`. */
  lemma KeptAtSnocOrdered(pieces: seq<string>, rest: seq<nat>, pos: seq<nat>)
    requires pieces != []
    requires KeptAt(rest, pieces[..|pieces| - 1], KeepStripped(pieces[..|pieces| - 1]))
    requires pos == rest + (if Strip(pieces[|pieces| - 1]) != [] then [|pieces| - 1] else [])
    ensures forall k, l | 0 <= k < l < |pos| :: pos[k] < pos[l]
  {
    forall k, l | 0 <= k < l < |pos| ensures pos[k] < pos[l] {
      assert pos[k] == rest[k];
    }
  }

  /** The kept ids are the stripped pieces at the positions of `pos`. */
  lemma KeptAtSnocValues(pieces: seq<string>, rest: seq<nat>, pos: seq<nat>)
    requires pieces != []
    requires KeptAt(rest, pieces[..|pieces| - 1], KeepStripped(pieces[..|pieces| - 1]))
    requires pos == rest + (if Strip(pieces[|pieces| - 1]) != [] then [|pieces| - 1] else [])
    ensures |pos| == |KeepStripped(pieces)|
    ensures forall k | 0 <= k < |pos| :: pos[k] < |pieces| && KeepStripped(pieces)[k] == Strip(pieces[pos[k]])
  {
    var n := |pieces| - 1;
    var init := pieces[..n];
    var kept := KeepStripped(pieces);
    var before := KeepStripped(init);
    var t := Strip(pieces[n]);
    assert kept == before + (if t != [] then [t] else []);
    forall k | 0 <= k < |pos| ensures pos[k] < |pieces| && kept[k] == Strip(pieces[pos[k]]) {
      if k < |rest| {
        assert pos[k] == rest[k] && kept[k] == before[k];
        assert init[rest[k]] == pieces[rest[k]];
      } else {
        assert pos[k] == n && kept[k] == t;
      }
    }
  }

  function SheetIds(config: Config): seq<string> {
    ParseSheetIds(config.sheetIdsRaw.GetOr(""))
  }

  /** `if not api_token or not sheet_ids: raise ValueError(...)`. */
  predicate ConfigValid(config: Config) {
    config.apiToken.Some? && config.apiToken.value != [] && SheetIds(config) != []
  }

  // ---------------------------------------------------------------------------
  // Table names
  // ---------------------------------------------------------------------------

  /** `format_table_name`: lower case, spaces to underscores. */
  function FormatTableName(name: string): (r: string)
    ensures |r| == |name|
    ensures ' ' !in r
  {
    NoSpaceAfterReplace(Lower(name));
    ReplaceChar(Lower(name), ' ', '_')
  }

  lemma {:induction false} NoSpaceAfterReplace(s: string)
    ensures ' ' !in ReplaceChar(s, ' ', '_')
  {
    if s != [] {
      NoSpaceAfterReplace(s[1..]);
    }
  }

  /** The name used for a sheet whose name cannot be had. */
  function FallbackName(sheetId: string): string {
    "smartsheet_" + sheetId
  }

  /**
   * The table name computed inside the fetch's `try` block: the formatted `name` field,
   * or the formatted fallback when the field is absent; `None` when the block raises
   * (the fetch failed, or `name` is present but not a string).
   */
  function TableFor(sheetId: string, fetched: Option<SheetData>): (r: Option<string>)
    ensures r.Some? <==> fetched.Some? && (fetched.value.name.None? || fetched.value.name.value.Str?)
    ensures r.Some? ==> ' ' !in r.value
  {
    match fetched
    case None => None
    case Some(data) =>
      match data.name.GetOr(Str(FallbackName(sheetId)))
      case Str(name) => Some(FormatTableName(name))
      case _ => None
  }

  /** A destination table declaration. */
  datatype Table = Table(table: string, primaryKey: seq<string>)

  /** `schema`: one table per configured sheet id, in order, keyed by `id`. */
  method Schema(config: Config, lookup: string -> Option<SheetData>) returns (tables: seq<Table>)
    ensures |tables| == |SheetIds(config)|
    ensures forall i | 0 <= i < |tables| :: tables[i].primaryKey == ["id"]
    ensures forall i | 0 <= i < |tables| :: SchemaNameCases(SheetIds(config)[i], lookup(SheetIds(config)[i]), tables[i].table)
  {
    var sheetIds := SheetIds(config);
    tables := [];
    for i := 0 to |sheetIds|
      invariant |tables| == i
      invariant forall k | 0 <= k < i :: tables[k].primaryKey == ["id"]
      invariant forall k | 0 <= k < i :: SchemaNameCases(sheetIds[k], lookup(sheetIds[k]), tables[k].table)
    {
      var table := DeclareTable(sheetIds[i], lookup(sheetIds[i]));
      tables := tables + [table];
    }
  }

  /** One iteration of `schema`: the table of one sheet id, named inside a `try` block. */
  method DeclareTable(sheetId: string, fetched: Option<SheetData>) returns (t: Table)
    ensures t.primaryKey == ["id"] && SchemaNameCases(sheetId, fetched, t.table)
  {
    var name := TableFor(sheetId, fetched);
    var table := if name.Some? then name.value else FallbackName(sheetId);
    t := Table(table, ["id"]);
  }

  /** The table `schema` declares for a sheet id, by the outcome of its fetch. */
  ghost predicate SchemaNameCases(id: string, fetched: Option<SheetData>, table: string) {
    match fetched
    case None => table == FallbackName(id)
    case Some(data) =>
      match data.name
      case None => table == FormatTableName(FallbackName(id))
      case Some(Str(name)) => table == FormatTableName(name)
      case Some(_) => table == FallbackName(id)
  }


  // ---------------------------------------------------------------------------
  // Sync cursor
  // ---------------------------------------------------------------------------

  const MicrosPerSecond: int := 1_000_000
  const MicrosPerDay: int := 86_400 * MicrosPerSecond
  /** A cursor this many whole days old forces a full sync. */
  const FullSyncAfterDays: int := 7

  /**
   * The stored `sync_cursor` as the run sees it: absent or null; present but falsy
   * (an empty string); present, truthy and rejected by the ISO-8601 parser; or parsed.
   */
  datatype StoredCursor = Missing | Blank | Unparsable | At(instant: int)

  /** Whether the run performs delete detection (`sync_cursor is None`). */
  datatype Mode = Full | Incremental

  /** `timedelta.days` of a span: whole days, rounded toward minus infinity. */
  function WholeDays(span: int): int {
    span / MicrosPerDay
  }

  /**
   * The mode chosen from the stored cursor: the cursor is dropped when it cannot be
   * parsed or is at least seven whole days old; a blank cursor is never checked and
   * is kept, and so is a cursor in the future.
   */
  function ModeOf(cursor: StoredCursor, now: int): (m: Mode)
    ensures m == Full <==>
      || cursor.Missing?
      || cursor.Unparsable?
      || (cursor.At? && now - cursor.instant >= FullSyncAfterDays * MicrosPerDay)
  {
    match cursor
    case Missing => Full
    case Blank => Incremental
    case Unparsable => Full
    case At(last) => if WholeDays(now - last) >= FullSyncAfterDays then Full else Incremental
  }

  /** The run-start instant with its microseconds cleared (`replace(microsecond=0)`). */
  function CheckpointCursor(runStart: int): (c: int)
    ensures c <= runStart < c + MicrosPerSecond
    ensures c % MicrosPerSecond == 0
  {
    runStart - runStart % MicrosPerSecond
  }

  // ---------------------------------------------------------------------------
  // Operations and the plan they realise
  // ---------------------------------------------------------------------------

  /** The persisted `all_ids`: sheet id to the row ids last seen. */
  type IdMap = map<string, set<Value>>

  /** What `update` yields: `op.upsert`, `op.delete` and `op.checkpoint`. */
  datatype Operation =
    | Upsert(table: string, record: Record)
    | Delete(table: string, id: Value)
    | Checkpoint(cursor: int, allIds: IdMap)

  /**
   * A step of the specification: one operation, or one delete per id of a set in an
   * order the specification leaves open (Python's set iteration order).
   */
  datatype Step = Emit(op: Operation) | DeleteEach(table: string, ids: set<Value>)

  /**
   * `block` deletes every id of `ids` from `table` once, and nothing else: its first
   * operation deletes some id of `ids`, and the rest delete the others.
   */
  ghost predicate DeletesExactly(block: seq<Operation>, table: string, ids: set<Value>)
    decreases |block|
  {
    if block == [] then ids == {}
    else
      && block[0].Delete? && block[0].table == table && block[0].id in ids
      && DeletesExactly(block[1..], table, ids - {block[0].id})
  }

  /**
   * What `DeletesExactly` means, position by position: one operation per id, each a delete
   * from `table` of an id of `ids`, no id twice, and every id of `ids` deleted.
   */
  lemma DeletesExactlyMeaning(block: seq<Operation>, table: string, ids: set<Value>)
    requires DeletesExactly(block, table, ids)
    ensures |block| == |ids|
    ensures forall i | 0 <= i < |block| :: block[i].Delete? && block[i].table == table && block[i].id in ids
    ensures forall i, j | 0 <= i < j < |block| :: block[i].id != block[j].id
    ensures forall x | x in ids :: exists i | 0 <= i < |block| :: block[i].id == x
  {
    DeletesExactlyLength(block, table, ids);
    DeletesExactlyOps(block, table, ids);
    DeletesExactlyDistinct(block, table, ids);
    DeletesExactlyCovers(block, table, ids);
  }

  lemma {:induction false} DeletesExactlyLength(block: seq<Operation>, table: string, ids: set<Value>)
    requires DeletesExactly(block, table, ids)
    ensures |block| == |ids|
    decreases |block|
  {
    if block != [] {
      DeletesExactlyLength(block[1..], table, ids - {block[0].id});
    }
  }

  lemma {:induction false} DeletesExactlyOps(block: seq<Operation>, table: string, ids: set<Value>)
    requires DeletesExactly(block, table, ids)
    ensures forall i | 0 <= i < |block| :: block[i].Delete? && block[i].table == table && block[i].id in ids
    decreases |block|
  {
    if block != [] {
      var rest := block[1..];
      DeletesExactlyOps(rest, table, ids - {block[0].id});
      forall i | 0 <= i < |block| ensures block[i].Delete? && block[i].table == table && block[i].id in ids {
        if i > 0 { assert block[i] == rest[i - 1]; }
      }
    }
  }

  lemma {:induction false} DeletesExactlyDistinct(block: seq<Operation>, table: string, ids: set<Value>)
    requires DeletesExactly(block, table, ids)
    ensures forall i | 0 <= i < |block| :: block[i].Delete? && block[i].table == table && block[i].id in ids
    ensures forall i, j | 0 <= i < j < |block| :: block[i].id != block[j].id
    decreases |block|
  {
    DeletesExactlyOps(block, table, ids);
    if block != [] {
      var rest := block[1..];
      DeletesExactlyDistinct(rest, table, ids - {block[0].id});
      forall i, j | 0 <= i < j < |block| ensures block[i].id != block[j].id {
        assert block[j] == rest[j - 1];
        if i > 0 { assert block[i] == rest[i - 1]; }
      }
    }
  }

  lemma {:induction false} DeletesExactlyCovers(block: seq<Operation>, table: string, ids: set<Value>)
    requires DeletesExactly(block, table, ids)
    ensures forall i | 0 <= i < |block| :: block[i].Delete? && block[i].table == table && block[i].id in ids
    ensures forall x | x in ids :: exists i | 0 <= i < |block| :: block[i].id == x
    decreases |block|
  {
    DeletesExactlyOps(block, table, ids);
    if block != [] {
      var first := block[0].id;
      var rest := block[1..];
      DeletesExactlyCovers(rest, table, ids - {first});
      forall x | x in ids ensures exists i | 0 <= i < |block| :: block[i].id == x {
        if x == first {
          assert block[0].id == x;
        } else {
          assert x in ids - {first};
          var k :| 0 <= k < |rest| && rest[k].id == x;
          assert block[k + 1].id == x;
        }
      }
    }
  }

  /** The operation stream `ops` carries out the steps of `plan` in order. */
  ghost predicate Realizes(ops: seq<Operation>, plan: seq<Step>)
    decreases |plan|
  {
    if plan == [] then ops == []
    else match plan[0]
      case Emit(op) => |ops| >= 1 && ops[0] == op && Realizes(ops[1..], plan[1..])
      case DeleteEach(table, ids) =>
        && |ops| >= |ids|
        && DeletesExactly(ops[..|ids|], table, ids)
        && Realizes(ops[|ids|..], plan[1..])
  }

  function EmitAll(ops: seq<Operation>): seq<Step> {
    if ops == [] then [] else [Emit(ops[0])] + EmitAll(ops[1..])
  }

  lemma {:induction false} RealizesEmitAll(ops: seq<Operation>)
    ensures Realizes(ops, EmitAll(ops))
  {
    if ops != [] {
      RealizesEmitAll(ops[1..]);
    }
  }

  lemma {:induction false} RealizesAppend(ops1: seq<Operation>, plan1: seq<Step>, ops2: seq<Operation>, plan2: seq<Step>)
    requires Realizes(ops1, plan1) && Realizes(ops2, plan2)
    ensures Realizes(ops1 + ops2, plan1 + plan2)
    decreases |plan1|
  {
    if plan1 == [] {
      assert plan1 + plan2 == plan2 && ops1 + ops2 == ops2;
    } else {
      var block, rest := RealizesFirst(ops1, plan1);
      RealizesAppend(rest, plan1[1..], ops2, plan2);
      RealizesStep(block, plan1[0], rest + ops2, plan1[1..] + plan2);
      ConcatAssoc(block, rest, ops2);
      ConcatAssoc([plan1[0]], plan1[1..], plan2);
      assert [plan1[0]] + plan1[1..] == plan1;
    }
  }

  /** One more operation emitted at the end. */
  lemma RealizesSnoc(ops: seq<Operation>, plan: seq<Step>, op: Operation)
    requires Realizes(ops, plan)
    ensures Realizes(ops + [op], plan + [Emit(op)])
  {
    assert Realizes([op], [Emit(op)]) by {
      assert [op][1..] == [];
    }
    RealizesAppend(ops, plan, [op], [Emit(op)]);
  }

  /** The operations of a plan's first step, and those of the rest. */
  lemma RealizesFirst(ops: seq<Operation>, plan: seq<Step>) returns (block: seq<Operation>, rest: seq<Operation>)
    requires plan != [] && Realizes(ops, plan)
    ensures ops == block + rest
    ensures Realizes(block, [plan[0]]) && Realizes(rest, plan[1..])
  {
    var n := if plan[0].Emit? then 1 else |plan[0].ids|;
    block, rest := ops[..n], ops[n..];
    assert block[..n] == block && block[n..] == [];
  }

  /** One step's operations followed by the rest's carry out the step followed by the rest. */
  lemma RealizesStep(block: seq<Operation>, step: Step, ops: seq<Operation>, plan: seq<Step>)
    requires Realizes(block, [step]) && Realizes(ops, plan)
    ensures Realizes(block + ops, [step] + plan)
  {
    var n := if step.Emit? then 1 else |step.ids|;
    assert |block| == n by {
      assert block[n..] == [];
    }
    assert block[..n] == block;
    assert (block + ops)[..n] == block;
    assert (block + ops)[n..] == ops;
    assert ([step] + plan)[1..] == plan;
  }

  // ---------------------------------------------------------------------------
  // Specification of `update`
  // ---------------------------------------------------------------------------

  /** The row loop of one sheet: the upserts yielded, the ids observed, and whether it raised out of `update`. */
  datatype RowsResult = RowsResult(upserts: seq<Operation>, observed: set<Value>, crashed: bool)

  /**
   * The row loop: one upsert per normalised row, in row order; a row's id is observed
   * once it is hashable, even when its cells then fail; a row that is no object ends the run.
   */
  function ProcessRows(rows: seq<Row>, mapping: Mapping, table: string): (r: RowsResult)
    ensures forall i | 0 <= i < |r.upserts| :: r.upserts[i].Upsert? && r.upserts[i].table == table
    ensures r.crashed <==> exists i | 0 <= i < |rows| :: rows[i].NotAnObject?
    ensures !r.crashed ==> r.observed == set i | 0 <= i < |rows| && rows[i].Row? && Hashable(rows[i].id) :: rows[i].id
  {
    if rows == [] then RowsResult([], {}, false)
    else
      var init := rows[..|rows| - 1];
      var row := rows[|rows| - 1];
      var acc := ProcessRows(init, mapping, table);
      assert forall i | 0 <= i < |init| :: init[i] == rows[i];
      if acc.crashed then acc
      else
        assert (set i | 0 <= i < |rows| && rows[i].Row? && Hashable(rows[i].id) :: rows[i].id)
            == (set i | 0 <= i < |init| && init[i].Row? && Hashable(init[i].id) :: init[i].id)
               + (if row.Row? && Hashable(row.id) then {row.id} else {});
        match RowOutcomeOf(row, mapping)
        case Crashed => RowsResult(acc.upserts, acc.observed, true)
        case SkippedUnobserved => acc
        case SkippedObserved => RowsResult(acc.upserts, acc.observed + {row.id}, false)
        case Normalized(rec) => RowsResult(acc.upserts + [Upsert(table, rec)], acc.observed + {row.id}, false)
  }

  /** The outcome of one sheet: the steps it adds, the id map after it, and whether it ended the run. */
  datatype SheetResult = SheetResult(plan: seq<Step>, allIds: IdMap, crashed: bool)

  /** `all_state_ids.get(sheet_id, [])` as a set. */
  function Previous(allIds: IdMap, sheetId: string): set<Value> {
    if sheetId in allIds then allIds[sheetId] else {}
  }

  /**
   * One iteration of the sheet loop: skipped when the fetch fails; otherwise upserts in row
   * order, then (in full mode only) deletes of the previous ids not observed, then the
   * sheet's entry is replaced by the observed ids.
   */
  function ProcessSheet(mode: Mode, sheetId: string, fetched: Option<SheetData>, allIds: IdMap): SheetResult {
    match TableFor(sheetId, fetched)
    case None => SheetResult([], allIds, false)
    case Some(table) =>
      match ColumnMapping(fetched.value.columns)
      case None => SheetResult([], allIds, true)
      case Some(mapping) =>
        var rows := ProcessRows(fetched.value.rows, mapping, table);
        if rows.crashed then SheetResult(EmitAll(rows.upserts), allIds, true)
        else
          var deletes := if mode == Full then [DeleteEach(table, Previous(allIds, sheetId) - rows.observed)] else [];
          SheetResult(EmitAll(rows.upserts) + deletes, allIds[sheetId := rows.observed], false)
  }

  /** The sheet loop over `sheetIds`, in order, stopping at the first sheet that ends the run. */
  function ProcessSheets(mode: Mode, sheetIds: seq<string>, fetch: string -> Option<SheetData>, allIds: IdMap): SheetResult {
    if sheetIds == [] then SheetResult([], allIds, false)
    else
      var acc := ProcessSheets(mode, sheetIds[..|sheetIds| - 1], fetch, allIds);
      if acc.crashed then acc
      else
        var id := sheetIds[|sheetIds| - 1];
        var s := ProcessSheet(mode, id, fetch(id), acc.allIds);
        SheetResult(acc.plan + s.plan, s.allIds, s.crashed)
  }

  /** How a run ends: normally (with a checkpoint), on the configuration check, or on an uncaught error. */
  datatype Outcome = Finished | ConfigError | Raised

  datatype RunPlan = RunPlan(plan: seq<Step>, outcome: Outcome)

  /** The state `update` receives: the stored cursor and `all_ids` (empty when absent). */
  datatype SyncState = SyncState(cursor: StoredCursor, allIds: IdMap)

  /** The specification of one run of `update`. */
  function UpdatePlan(config: Config, state: SyncState, now: int, runStart: int, fetch: string -> Option<SheetData>): RunPlan {
    if !ConfigValid(config) then RunPlan([], ConfigError)
    else
      var r := ProcessSheets(ModeOf(state.cursor, now), SheetIds(config), fetch, state.allIds);
      if r.crashed then RunPlan(r.plan, Raised)
      else RunPlan(r.plan + [Emit(Checkpoint(CheckpointCursor(runStart), r.allIds))], Finished)
  }

  // ---------------------------------------------------------------------------
  // `update`
  // ---------------------------------------------------------------------------

  datatype RunResult = RunResult(ops: seq<Operation>, outcome: Outcome)

  /**
   * One run of `update`: the operations it yields, in order, and how it ends. `now` is the
   * clock read when checking the cursor's age, `runStart` the one taken for `sync_start`.
   */
  method Update(config: Config, state: SyncState, now: int, runStart: int, fetch: string -> Option<SheetData>)
    returns (run: RunResult)
    ensures Realizes(run.ops, UpdatePlan(config, state, now, runStart, fetch).plan)
    ensures run.outcome == UpdatePlan(config, state, now, runStart, fetch).outcome
    ensures run.outcome == ConfigError <==> !ConfigValid(config)
    ensures run.outcome == ConfigError ==> run.ops == []
    ensures run.outcome == Finished ==>
      |run.ops| > 0 && run.ops[|run.ops| - 1].Checkpoint? && run.ops[|run.ops| - 1].cursor == CheckpointCursor(runStart)
  {
    var sheetIds := ParseSheetIds(config.sheetIdsRaw.GetOr(""));
    var cursor := state.cursor;
    if cursor.Unparsable? {
      cursor := Missing;
    } else if cursor.At? && WholeDays(now - cursor.instant) >= FullSyncAfterDays {
      cursor := Missing;
    }
    var syncStart := CheckpointCursor(runStart);
    if config.apiToken.None? || config.apiToken.value == [] || sheetIds == [] {
      return RunResult([], ConfigError);
    }
    var mode := if cursor.Missing? then Full else Incremental;
    assert mode == ModeOf(state.cursor, now);

    var ops, allIds, crashed := SyncSheets(mode, sheetIds, fetch, state.allIds);
    if crashed {
      return RunResult(ops, Raised);
    }
    var checkpoint := Checkpoint(syncStart, allIds);
    RealizesSnoc(ops, ProcessSheets(mode, sheetIds, fetch, state.allIds).plan, checkpoint);
    run := RunResult(ops + [checkpoint], Finished);
  }

  /** The sheet loop: each sheet in order, until one ends the run. */
  method SyncSheets(mode: Mode, sheetIds: seq<string>, fetch: string -> Option<SheetData>, allIds0: IdMap)
    returns (ops: seq<Operation>, allIds: IdMap, crashed: bool)
    ensures Realizes(ops, ProcessSheets(mode, sheetIds, fetch, allIds0).plan)
    ensures allIds == ProcessSheets(mode, sheetIds, fetch, allIds0).allIds
    ensures crashed == ProcessSheets(mode, sheetIds, fetch, allIds0).crashed
  {
    allIds := allIds0;
    ops := [];
    ghost var plan: seq<Step> := [];
    for i := 0 to |sheetIds|
      invariant ProcessSheets(mode, sheetIds[..i], fetch, allIds0) == SheetResult(plan, allIds, false)
      invariant Realizes(ops, plan)
    {
      ProcessSheetsSnoc(mode, sheetIds, i, fetch, allIds0);
      ghost var sheet := ProcessSheet(mode, sheetIds[i], fetch(sheetIds[i]), allIds);
      var sheetOps;
      sheetOps, allIds, crashed := SyncSheet(mode, sheetIds[i], fetch(sheetIds[i]), allIds);
      RealizesAppend(ops, plan, sheetOps, sheet.plan);
      ops, plan := ops + sheetOps, plan + sheet.plan;
      if crashed {
        SheetsCrashedPrefix(mode, sheetIds, i + 1, fetch, allIds0);
        return;
      }
    }
    assert sheetIds[..|sheetIds|] == sheetIds;
    crashed := false;
  }

  /**
   * The body of the sheet loop: fetch, name the table, build the column map, run the
   * row loop, emit the deletes in full mode and replace the sheet's id entry.
   */
  method SyncSheet(mode: Mode, sheetId: string, fetched: Option<SheetData>, allIds: IdMap)
    returns (ops: seq<Operation>, allIds': IdMap, crashed: bool)
    ensures Realizes(ops, ProcessSheet(mode, sheetId, fetched, allIds).plan)
    ensures allIds' == ProcessSheet(mode, sheetId, fetched, allIds).allIds
    ensures crashed == ProcessSheet(mode, sheetId, fetched, allIds).crashed
  {
    var tableName := TableFor(sheetId, fetched);
    if tableName.None? {
      return [], allIds, false;
    }
    var table := tableName.value;
    var data := fetched.value;
    var columns := ColumnMapping(data.columns);
    if columns.None? {
      return [], allIds, true;
    }
    var previous := Previous(allIds, sheetId);
    var rows := SyncRows(data.rows, columns.value, table);
    RealizesEmitAll(rows.upserts);
    if rows.crashed {
      return rows.upserts, allIds, true;
    }
    ops := rows.upserts;
    if mode == Full {
      var deleted := previous - rows.observed;
      var block := DeleteMissing(table, deleted);
      RealizesDeleteEach(block, table, deleted);
      RealizesAppend(ops, EmitAll(rows.upserts), block, [DeleteEach(table, deleted)]);
      ops := ops + block;
    } else {
      assert EmitAll(rows.upserts) + [] == EmitAll(rows.upserts);
    }
    allIds' := allIds[sheetId := rows.observed];
    crashed := false;
  }

  /**
   * The row loop of one sheet: a row that is no object ends it (and the run); a row with
   * an unhashable id is skipped unobserved; otherwise the id is observed first and the
   * row is upserted when its cells normalise.
   */
  method SyncRows(rows: seq<Row>, mapping: Mapping, table: string) returns (r: RowsResult)
    ensures r == ProcessRows(rows, mapping, table)
  {
    var newIds: set<Value> := {};
    var upserts: seq<Operation> := [];
    for j := 0 to |rows|
      invariant ProcessRows(rows[..j], mapping, table) == RowsResult(upserts, newIds, false)
    {
      ProcessRowsSnoc(rows, j, mapping, table);
      var row := rows[j];
      if row.NotAnObject? {
        RowsCrashedPrefix(rows, j + 1, mapping, table);
        return RowsResult(upserts, newIds, true);
      }
      if !Hashable(row.id) {
        continue;
      }
      newIds := newIds + {row.id};
      var record := BuildRecord(row, mapping);
      if record.Some? {
        upserts := upserts + [Upsert(table, record.value)];
      }
    }
    assert rows[..|rows|] == rows;
    r := RowsResult(upserts, newIds, false);
  }

  /** One delete per id of `deleted`, in the order a set yields them. */
  method DeleteMissing(table: string, deleted: set<Value>) returns (block: seq<Operation>)
    ensures DeletesExactly(block, table, deleted)
  {
    block := [];
    var remaining := deleted;
    ghost var done: set<Value> := {};
    while remaining != {}
      invariant done + remaining == deleted && done !! remaining
      invariant DeletesExactly(block, table, done)
      decreases remaining
    {
      var id :| id in remaining;
      DeletesExactlySnoc(block, table, done, id);
      block := block + [Delete(table, id)];
      remaining, done := remaining - {id}, done + {id};
    }
    assert done == deleted;
  }

  /** Deleting one more id, not yet deleted, at the end. */
  lemma {:induction false} DeletesExactlySnoc(block: seq<Operation>, table: string, done: set<Value>, id: Value)
    requires DeletesExactly(block, table, done) && id !in done
    ensures DeletesExactly(block + [Delete(table, id)], table, done + {id})
    decreases |block|
  {
    var block' := block + [Delete(table, id)];
    if block == [] {
      assert block'[1..] == [];
      assert (done + {id}) - {id} == {};
    } else {
      var first := block[0].id;
      DeletesExactlySnoc(block[1..], table, done - {first}, id);
      assert block'[1..] == block[1..] + [Delete(table, id)];
      assert (done + {id}) - {first} == (done - {first}) + {id};
    }
  }

  lemma RealizesDeleteEach(block: seq<Operation>, table: string, ids: set<Value>)
    requires DeletesExactly(block, table, ids)
    ensures Realizes(block, [DeleteEach(table, ids)])
  {
    DeletesExactlyMeaning(block, table, ids);
    assert block[..|ids|] == block && block[|ids|..] == [];
  }

  /** Once the row loop has ended the run, later rows change nothing. */
  lemma {:induction false} RowsCrashedPrefix(rows: seq<Row>, m: nat, mapping: Mapping, table: string)
    requires m <= |rows| && ProcessRows(rows[..m], mapping, table).crashed
    ensures ProcessRows(rows, mapping, table) == ProcessRows(rows[..m], mapping, table)
    decreases |rows| - m
  {
    if m < |rows| {
      assert rows[..m + 1][..m] == rows[..m];
      RowsCrashedPrefix(rows, m + 1, mapping, table);
    } else {
      assert rows[..m] == rows;
    }
  }

  /** The row loop one row further on. */
  lemma ProcessRowsSnoc(rows: seq<Row>, j: nat, mapping: Mapping, table: string)
    requires j < |rows| && !ProcessRows(rows[..j], mapping, table).crashed
    ensures var acc := ProcessRows(rows[..j], mapping, table);
      ProcessRows(rows[..j + 1], mapping, table) ==
        match RowOutcomeOf(rows[j], mapping)
        case Crashed => RowsResult(acc.upserts, acc.observed, true)
        case SkippedUnobserved => acc
        case SkippedObserved => RowsResult(acc.upserts, acc.observed + {rows[j].id}, false)
        case Normalized(rec) => RowsResult(acc.upserts + [Upsert(table, rec)], acc.observed + {rows[j].id}, false)
  {
    assert rows[..j + 1][..j] == rows[..j];
  }

  /** The sheet loop one sheet further on. */
  lemma ProcessSheetsSnoc(mode: Mode, sheetIds: seq<string>, i: nat, fetch: string -> Option<SheetData>, allIds: IdMap)
    requires i < |sheetIds| && !ProcessSheets(mode, sheetIds[..i], fetch, allIds).crashed
    ensures var acc := ProcessSheets(mode, sheetIds[..i], fetch, allIds);
      var s := ProcessSheet(mode, sheetIds[i], fetch(sheetIds[i]), acc.allIds);
      ProcessSheets(mode, sheetIds[..i + 1], fetch, allIds) == SheetResult(acc.plan + s.plan, s.allIds, s.crashed)
  {
    assert sheetIds[..i + 1][..i] == sheetIds[..i];
  }

  /** Once a sheet has ended the run, later sheets change nothing. */
  lemma {:induction false} SheetsCrashedPrefix(mode: Mode, sheetIds: seq<string>, m: nat, fetch: string -> Option<SheetData>, allIds: IdMap)
    requires m <= |sheetIds| && ProcessSheets(mode, sheetIds[..m], fetch, allIds).crashed
    ensures ProcessSheets(mode, sheetIds, fetch, allIds) == ProcessSheets(mode, sheetIds[..m], fetch, allIds)
    decreases |sheetIds| - m
  {
    if m < |sheetIds| {
      assert sheetIds[..m + 1][..m] == sheetIds[..m];
      SheetsCrashedPrefix(mode, sheetIds, m + 1, fetch, allIds);
    } else {
      assert sheetIds[..m] == sheetIds;
    }
  }
}
