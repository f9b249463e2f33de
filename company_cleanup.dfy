/**
 * The data migrations on the companies table: the `clean_name` back-fill
 * that came with the column, the removal of companies named after a
 * footnote marker, and the later back-fill of clean names still missing.
 * A missing table is `None`; a name that is null or not a string is `None`.
 */
module CompanyCleanup {
  import opened Wrappers
  import opened PhpStrings
  import opened Store
  import CleansTitles
  import PageJobs

  // ------------------------------------------------ adding clean_name

  /** The row after the first back-fill: a string name gets its clean title. */
  function WithCleanName(e: Entity): Entity {
    if e.name.Some? then e.(cleanName := Some(CleansTitles.CleanTitle(e.name.value))) else e
  }

  /**
   * The back-fill loop of the migration adding `clean_name`: every row with a
   * string name gets `makeCleanTitle(name)`, overwriting what was there; no
   * row is added, removed or reordered.
   */
  method AddCleanNames(table: Option<seq<Entity>>) returns (table': Option<seq<Entity>>)
    ensures table.None? ==> table' == None
    ensures table.Some? ==>
      table'.Some? && |table'.value| == |table.value| &&
      forall i :: 0 <= i < |table.value| ==> table'.value[i] == WithCleanName(table.value[i])
  {
    if table.None? {
      return None;
    }
    var rows := table.value;
    var i := 0;
    while i < |rows|
      invariant 0 <= i <= |rows| && |rows| == |table.value|
      invariant forall j :: 0 <= j < i ==> rows[j] == WithCleanName(table.value[j])
      invariant forall j :: i <= j < |rows| ==> rows[j] == table.value[j]
    {
      var row := CleanRow(rows[i]);
      rows := rows[i := row];
      i := i + 1;
    }
    return Some(rows);
  }

  /** The body of the back-fill loop for one row. */
  method CleanRow(row: Entity) returns (row': Entity)
    ensures row' == WithCleanName(row)
  {
    row' := row;
    var name := row.name;
    if name.Some? {
      row' := row.(cleanName := Some(CleansTitles.CleanTitle(name.value)));
    }
  }

  /**
   * Only `clean_name` changes, and it changes exactly on rows with a string
   * name, to the name's clean title; a second run changes nothing more.
   */
  lemma WithCleanNameEffect(e: Entity)
    ensures WithCleanName(e) == e.(cleanName := WithCleanName(e).cleanName)
    ensures e.name.Some? ==> WithCleanName(e).cleanName == Some(CleansTitles.CleanTitle(e.name.value))
    ensures e.name.None? ==> WithCleanName(e) == e
    ensures WithCleanName(WithCleanName(e)) == WithCleanName(e)
  {
  }

  // ------------------------------------------------ footnote companies

  /** A row the footnote migration deletes: its trimmed string name is "[x]" for one ASCII letter or digit. */
  predicate IsFootnoteRow(e: Entity) {
    e.name.Some? && Trim(e.name.value) != "" && PageJobs.IsBracketFootnoteToken(e.name.value)
  }

  /** The ids the chunk loop collects. */
  function FootnoteIds(rows: seq<Entity>): (ids: seq<nat>)
    ensures forall id :: id in ids <==> exists i :: 0 <= i < |rows| && IsFootnoteRow(rows[i]) && rows[i].id == id
  {
    if rows == [] then []
    else
      var last := rows[|rows| - 1];
      var ids := FootnoteIds(rows[..|rows| - 1]);
      assert forall i :: 0 <= i < |rows| - 1 ==> rows[..|rows| - 1][i] == rows[i];
      if IsFootnoteRow(last) then ids + [last.id] else ids
  }

  /** `whereIn('id', $ids)->delete()`: the rows whose id is not listed, in order. */
  function DropIds(rows: seq<Entity>, ids: seq<nat>): (r: seq<Entity>)
    ensures |r| <= |rows|
  {
    if rows == [] then []
    else
      var kept := DropIds(rows[..|rows| - 1], ids);
      if rows[|rows| - 1].id in ids then kept else kept + [rows[|rows| - 1]]
  }

  /** The companies table as the migration should leave it: every row but the footnote rows, in order. */
  function WithoutFootnotes(rows: seq<Entity>): (r: seq<Entity>)
    ensures |r| <= |rows|
  {
    if rows == [] then []
    else
      var kept := WithoutFootnotes(rows[..|rows| - 1]);
      if IsFootnoteRow(rows[|rows| - 1]) then kept else kept + [rows[|rows| - 1]]
  }

  /** Primary keys are distinct. */
  predicate IdsDistinct(rows: seq<Entity>) {
    forall i, j :: 0 <= i < j < |rows| ==> rows[i].id != rows[j].id
  }

  /**
   * The footnote migration: collect the ids of the footnote rows, delete
   * them, and with them (by the foreign key's cascade) their game links.
   */
  method RemoveFootnoteCompanies(table: Option<seq<Entity>>, links: set<Link>) returns (table': Option<seq<Entity>>, links': set<Link>)
    requires table.Some? ==> IdsDistinct(table.value)
    ensures table.None? ==> table' == None && links' == links
    ensures table.Some? ==> table' == Some(WithoutFootnotes(table.value))
    ensures table.Some? ==> links' == set l | l in links && !(l.table == Companies && l.otherId in FootnoteIds(table.value))
  {
    if table.None? {
      return None, links;
    }
    var rows := table.value;
    var ids: seq<nat> := [];
    var i := 0;
    while i < |rows|
      invariant 0 <= i <= |rows|
      invariant ids == FootnoteIds(rows[..i])
    {
      assert rows[..i + 1][..i] == rows[..i];
      var name := if rows[i].name.Some? then Trim(rows[i].name.value) else "";
      if name != "" && PageJobs.IsBracketFootnoteToken(name) {
        TrimTwice(rows[i].name.value);
        ids := ids + [rows[i].id];
      } else if rows[i].name.Some? {
        TrimTwice(rows[i].name.value);
      }
      i := i + 1;
    }
    assert rows[..i] == rows;
    var kept: seq<Entity> := [];
    i := 0;
    while i < |rows|
      invariant 0 <= i <= |rows|
      invariant kept == DropIds(rows[..i], ids)
    {
      assert rows[..i + 1][..i] == rows[..i];
      if rows[i].id !in ids {
        kept := kept + [rows[i]];
      }
      i := i + 1;
    }
    assert rows[..i] == rows;
    FootnoteIdsMatch(rows);
    DropIdsFilters(rows, ids);
    return Some(kept), set l | l in links && !(l.table == Companies && l.otherId in ids);
  }

  /** The migration tests the trimmed name, and the token test trims again: the same answer. */
  lemma TrimTwice(s: string)
    ensures PageJobs.IsBracketFootnoteToken(Trim(s)) == PageJobs.IsBracketFootnoteToken(s)
    ensures Trim(Trim(s)) == Trim(s)
  {
    var t := Trim(s);
    assert TrimLeft(t) == t;
    assert TrimRight(t) == t;
  }

  /** With distinct ids, an id is collected exactly when its row is a footnote row. */
  lemma FootnoteIdsMatch(rows: seq<Entity>)
    requires IdsDistinct(rows)
    ensures forall i :: 0 <= i < |rows| ==> (rows[i].id in FootnoteIds(rows) <==> IsFootnoteRow(rows[i]))
  {
  }

  /** Deleting by a list of ids that names exactly the footnote rows leaves the rows `WithoutFootnotes` keeps. */
  lemma {:induction false} DropIdsFilters(rows: seq<Entity>, ids: seq<nat>)
    requires forall i :: 0 <= i < |rows| ==> (rows[i].id in ids <==> IsFootnoteRow(rows[i]))
    ensures DropIds(rows, ids) == WithoutFootnotes(rows)
  {
    if rows != [] {
      var n := |rows| - 1;
      assert forall i :: 0 <= i < n ==> rows[..n][i] == rows[i];
      DropIdsFilters(rows[..n], ids);
    }
  }

  /**
   * A row survives the footnote migration exactly when it is not a footnote
   * row: null, non-string and blank names are kept, and survivors keep their
   * order.
   */
  lemma {:induction false} WithoutFootnotesMembers(rows: seq<Entity>)
    ensures forall e :: e in WithoutFootnotes(rows) <==> e in rows && !IsFootnoteRow(e)
  {
    if rows != [] {
      var n := |rows| - 1;
      WithoutFootnotesMembers(rows[..n]);
      assert rows == rows[..n] + [rows[n]];
    }
  }

  /** A second run deletes nothing. */
  lemma {:induction false} WithoutFootnotesIdempotent(rows: seq<Entity>)
    ensures WithoutFootnotes(WithoutFootnotes(rows)) == WithoutFootnotes(rows)
  {
    if rows != [] {
      var n := |rows| - 1;
      var kept := WithoutFootnotes(rows[..n]);
      WithoutFootnotesIdempotent(rows[..n]);
      if !IsFootnoteRow(rows[n]) {
        assert (kept + [rows[n]])[..|kept|] == kept;
      }
    }
  }

  // ------------------------------------------------ missing clean names

  /** `trim($name)` for a string name, '' otherwise. */
  function TrimmedName(e: Entity): string {
    if e.name.Some? then Trim(e.name.value) else ""
  }

  /** A row the later back-fill selects: `clean_name` null or ''. */
  predicate MissingCleanName(e: Entity) {
    e.cleanName.None? || e.cleanName == Some("")
  }

  /** The row after the later back-fill. */
  function FillCleanName(e: Entity): Entity {
    if MissingCleanName(e) && TrimmedName(e) != "" then e.(cleanName := Some(CleansTitles.CleanTitle(TrimmedName(e)))) else e
  }

  /**
   * The back-fill of missing clean names as evidently intended, with the two
   * `clean_name` conditions grouped so that each selected row is read once
   * in id order: a no-op without the table or the column; otherwise every
   * row becomes `FillCleanName` of itself.
   */
  method BackfillMissingCleanNames(table: Option<seq<Entity>>, hasCleanNameColumn: bool) returns (table': Option<seq<Entity>>)
    ensures table.None? || !hasCleanNameColumn ==> table' == table
    ensures table.Some? && hasCleanNameColumn ==>
      table'.Some? && |table'.value| == |table.value| &&
      forall i :: 0 <= i < |table.value| ==> table'.value[i] == FillCleanName(table.value[i])
  {
    if table.None? || !hasCleanNameColumn {
      return table;
    }
    var rows := table.value;
    var i := 0;
    while i < |rows|
      invariant 0 <= i <= |rows| && |rows| == |table.value|
      invariant forall j :: 0 <= j < i ==> rows[j] == FillCleanName(table.value[j])
      invariant forall j :: i <= j < |rows| ==> rows[j] == table.value[j]
    {
      var row := FillRow(rows[i]);
      rows := rows[i := row];
      i := i + 1;
    }
    return Some(rows);
  }

  // ------------------------------------------------ the paged query as written

  /** The page size of `chunkById(500, ...)`. */
  const ChunkSize: nat := 500

  /**
   * The where clause of a chunk as written. `chunkById` appends its
   * `id > ?` (from the second chunk on) to the ungrouped
   * `whereNull(...)->orWhere(...)`, so the id filter binds to the `orWhere`
   * alone: `clean_name IS NULL OR (clean_name = '' AND id > ?)`.
   */
  predicate SelectedAsWritten(e: Entity, lastId: Option<nat>) {
    e.cleanName.None? || (e.cleanName == Some("") && (lastId.None? || e.id > lastId.value))
  }

  /** The ids one chunk query returns: the first `limit` selected rows in id order. */
  function ChunkIds(rows: seq<Entity>, lastId: Option<nat>, limit: nat): (ids: seq<nat>)
    ensures |ids| <= limit
  {
    if rows == [] || limit == 0 then []
    else if SelectedAsWritten(rows[0], lastId) then [rows[0].id] + ChunkIds(rows[1..], lastId, limit - 1)
    else ChunkIds(rows[1..], lastId, limit)
  }

  /** The callback's updates by id: each row of the chunk gets its clean name. */
  function FillIds(rows: seq<Entity>, ids: seq<nat>): (r: seq<Entity>)
    ensures |r| == |rows|
    ensures forall i :: 0 <= i < |rows| ==> r[i] == (if rows[i].id in ids then FillCleanName(rows[i]) else rows[i])
  {
    seq(|rows|, i requires 0 <= i < |rows| => if rows[i].id in ids then FillCleanName(rows[i]) else rows[i])
  }

  /** The state between two chunks: the table, the last id seen, and whether another chunk is read. */
  datatype Paging = Paging(rows: seq<Entity>, lastId: Option<nat>, more: bool)

  /**
   * One turn of `chunkById`: read a chunk, stop on an empty one, otherwise
   * run the callback, remember the chunk's last id and go on exactly when
   * the chunk was full.
   */
  function ChunkRound(rows: seq<Entity>, lastId: Option<nat>): (r: Paging)
    ensures ChunkIds(rows, lastId, ChunkSize) == [] ==> r == Paging(rows, lastId, false)
  {
    var ids := ChunkIds(rows, lastId, ChunkSize);
    if ids == [] then Paging(rows, lastId, false)
    else Paging(FillIds(rows, ids), Some(ids[|ids| - 1]), |ids| == ChunkSize)
  }

  /** At most `rounds` turns of `chunkById`; `more` is still set when the loop has not ended. */
  function RunChunks(rows: seq<Entity>, lastId: Option<nat>, rounds: nat): (r: Paging)
    decreases rounds
  {
    if rounds == 0 then Paging(rows, lastId, true)
    else
      var r := ChunkRound(rows, lastId);
      if r.more then RunChunks(r.rows, r.lastId, rounds - 1) else r
  }

  /**
   * The migration's `chunkById` loop as written, run for at most `rounds`
   * chunks (the PHP loop has no bound); `finished` says whether it ended.
   */
  method BackfillChunkedAsWritten(table: Option<seq<Entity>>, hasCleanNameColumn: bool, rounds: nat)
    returns (table': Option<seq<Entity>>, finished: bool)
    ensures table.None? || !hasCleanNameColumn ==> table' == table && finished
    ensures table.Some? && hasCleanNameColumn ==>
      var r := RunChunks(table.value, None, rounds); table' == Some(r.rows) && finished == !r.more
  {
    if table.None? || !hasCleanNameColumn {
      return table, true;
    }
    var rows := table.value;
    var lastId: Option<nat> := None;
    var more := true;
    var left := rounds;
    while more && left > 0
      invariant RunChunks(table.value, None, rounds) ==
        (if more then RunChunks(rows, lastId, left) else Paging(rows, lastId, false))
      decreases left
    {
      var ids := ChunkIds(rows, lastId, ChunkSize);
      if ids == [] {
        more := false;
      } else {
        rows := FillIds(rows, ids);
        lastId := Some(ids[|ids| - 1]);
        more := |ids| == ChunkSize;
      }
      left := left - 1;
    }
    return Some(rows), !more;
  }

  /** A row the callback skips and the query as written keeps selecting: null clean_name and a blank name. */
  predicate Stuck(e: Entity) {
    e.cleanName.None? && TrimmedName(e) == ""
  }

  /** The first `ChunkSize` rows in id order are all stuck. */
  predicate StuckFirstChunk(rows: seq<Entity>) {
    |rows| >= ChunkSize && forall i :: 0 <= i < ChunkSize ==> Stuck(rows[i])
  }

  function IdsOf(rows: seq<Entity>): (ids: seq<nat>)
    ensures |ids| == |rows| && forall i :: 0 <= i < |rows| ==> ids[i] == rows[i].id
  {
    seq(|rows|, i requires 0 <= i < |rows| => rows[i].id)
  }

  /** Whatever the last id, rows with a null clean_name at the front fill the chunk. */
  lemma {:induction false} ChunkOfNullPrefix(rows: seq<Entity>, lastId: Option<nat>, n: nat)
    requires n <= |rows| && forall i :: 0 <= i < n ==> rows[i].cleanName.None?
    ensures ChunkIds(rows, lastId, n) == IdsOf(rows[..n])
  {
    if n > 0 {
      ChunkOfNullPrefix(rows[1..], lastId, n - 1);
      assert rows[1..][..n - 1] == rows[1..n];
    }
  }

  /**
   * A first chunk of stuck rows is read again and again: the callback
   * writes nothing, the last id stays that of the 500th row, and the full
   * chunk asks for another one.
   */
  lemma StuckChunkRepeats(rows: seq<Entity>, lastId: Option<nat>)
    requires IdsDistinct(rows) && StuckFirstChunk(rows)
    ensures ChunkRound(rows, lastId) == Paging(rows, Some(rows[ChunkSize - 1].id), true)
  {
    ChunkOfNullPrefix(rows, lastId, ChunkSize);
    var ids := IdsOf(rows[..ChunkSize]);
    forall i | 0 <= i < |rows| && rows[i].id in ids
      ensures FillCleanName(rows[i]) == rows[i]
    {
      var j :| 0 <= j < ChunkSize && ids[j] == rows[i].id;
      assert rows[j].id == rows[i].id;
    }
    assert FillIds(rows, ids) == rows;
  }

  /** So the loop as written never ends on such a table, however many chunks it reads. */
  lemma {:induction false} StuckNeverFinishes(rows: seq<Entity>, lastId: Option<nat>, rounds: nat)
    requires IdsDistinct(rows) && StuckFirstChunk(rows)
    ensures RunChunks(rows, lastId, rounds) == Paging(rows, RunChunks(rows, lastId, rounds).lastId, true)
    decreases rounds
  {
    if rounds > 0 {
      StuckChunkRepeats(rows, lastId);
      StuckNeverFinishes(rows, Some(rows[ChunkSize - 1].id), rounds - 1);
    }
  }

  /** `n` companies with ids 1..n, a null name and a null clean_name. */
  function NamelessCompanies(n: nat): (rows: seq<Entity>)
    ensures |rows| == n
    ensures forall i :: 0 <= i < n ==> rows[i].id == i + 1 && Stuck(rows[i])
  {
    seq(n, i requires 0 <= i < n =>
      Entity(i + 1, None, None, None, None, None, None, None, None, None, None, None))
  }

  /**
   * The input that shows it: with 500 nameless companies the migration as
   * written reads the same chunk forever, while the one-pass back-fill
   * visits each row once and leaves them as they are.
   */
  lemma NamelessCompaniesNeverFinish(rounds: nat)
    ensures RunChunks(NamelessCompanies(ChunkSize), None, rounds).more
  {
    var rows := NamelessCompanies(ChunkSize);
    assert IdsDistinct(rows);
    StuckNeverFinishes(rows, None, rounds);
  }

  /** The body of the chunk loop for one selected row. */
  method FillRow(row: Entity) returns (row': Entity)
    ensures row' == FillCleanName(row)
  {
    row' := row;
    if row.cleanName.None? || row.cleanName == Some("") {
      var name := if row.name.Some? then Trim(row.name.value) else "";
      if name != "" {
        row' := row.(cleanName := Some(CleansTitles.CleanTitle(name)));
      }
    }
  }

  /**
   * Rows with a non-empty clean name, and rows whose trimmed name is empty,
   * are untouched; only `clean_name` is written, from the trimmed name; a
   * second run changes nothing; afterwards no row with a non-blank name has
   * a null clean name.
   */
  lemma FillCleanNameEffect(e: Entity)
    ensures !MissingCleanName(e) || TrimmedName(e) == "" ==> FillCleanName(e) == e
    ensures MissingCleanName(e) && TrimmedName(e) != "" ==> FillCleanName(e) == e.(cleanName := Some(CleansTitles.CleanTitle(TrimmedName(e))))
    ensures FillCleanName(FillCleanName(e)) == FillCleanName(e)
    ensures TrimmedName(e) != "" ==> FillCleanName(e).cleanName.Some?
  {
  }
}
