/**
 * The data step of the migration that introduced the central wikipages
 * table: every row of a game, company or taxonomy table that still carries
 * page columns is folded into a wikipage (reused when one matches, created
 * otherwise), and the row's `wikipage_id` is back-filled.
 */
module WikipageMigration {
  import opened Wrappers
  import opened PhpStrings
  import opened Store

  /** Which of the four page columns the legacy table has. */
  datatype Columns = Columns(title: bool, url: bool, description: bool, wikitext: bool)

  /**
   * A row of a legacy table, as the chunked query returns it. `fallback` is
   * the value of the table's fallback title column (`name`, or `title` for
   * games); a column the table lacks reads as null.
   */
  datatype LegacyRow = LegacyRow(
    id: nat, wikipageId: Option<nat>, title: Option<string>, fallback: Option<string>,
    url: Option<string>, description: Option<string>, wikitext: Option<string>)

  predicate HasPageColumns(cols: Columns) {
    cols.title || cols.url || cols.description || cols.wikitext
  }

  /** `$title`: the title column when the table has one, else the fallback column. */
  function TitleOf(cols: Columns, r: LegacyRow): Option<string> {
    if cols.title then r.title else r.fallback
  }

  function UrlOf(cols: Columns, r: LegacyRow): Option<string> {
    if cols.url then r.url else None
  }

  function DescriptionOf(cols: Columns, r: LegacyRow): Option<string> {
    if cols.description then r.description else None
  }

  function WikitextOf(cols: Columns, r: LegacyRow): Option<string> {
    if cols.wikitext then r.wikitext else None
  }

  /** A row with none of the four values is skipped. */
  predicate NothingToStore(cols: Columns, r: LegacyRow) {
    TitleOf(cols, r).None? && UrlOf(cols, r).None? && DescriptionOf(cols, r).None? && WikitextOf(cols, r).None?
  }

  /** The wikipage the row's values describe, under `id`. */
  function PageFor(id: nat, cols: Columns, r: LegacyRow): Wikipage {
    Wikipage(id, TitleOf(cols, r), UrlOf(cols, r), DescriptionOf(cols, r), WikitextOf(cols, r))
  }

  /**
   * The lookup's `where` clause: `when($url)` adds the URL test and
   * `when($title)` the title test, each only for a truthy value.
   */
  predicate Filtered(url: Option<string>, title: Option<string>) {
    Truthy(url) || Truthy(title)
  }

  predicate LookupMatches(p: Wikipage, url: Option<string>, title: Option<string>) {
    (Truthy(url) && p.url == url) || (Truthy(title) && p.title == title)
  }

  /**
   * The index of the page the lookup's `value('id')` reads: the first match,
   * or with no filter at all the first wikipage.
   */
  function Lookup(pages: seq<Wikipage>, url: Option<string>, title: Option<string>): (r: Option<nat>)
    ensures r.Some? ==> r.value < |pages|
    ensures r.None? <==> (Filtered(url, title) && forall k :: 0 <= k < |pages| ==> !LookupMatches(pages[k], url, title)) || pages == []
  {
    if Filtered(url, title) then First(pages, (p: Wikipage) => LookupMatches(p, url, title))
    else if pages == [] then None
    else Some(0)
  }

  /** `$existing->col ?? $value` for every column. */
  function Merge(p: Wikipage, q: Wikipage): Wikipage {
    p.(title := if p.title.Some? then p.title else q.title,
       url := if p.url.Some? then p.url else q.url,
       description := if p.description.Some? then p.description else q.description,
       wikitext := if p.wikitext.Some? then p.wikitext else q.wikitext)
  }

  /** `q` keeps the id and every non-null column of `p`. */
  predicate KeepsValues(p: Wikipage, q: Wikipage) {
    q.id == p.id &&
    (p.title.Some? ==> q.title == p.title) && (p.url.Some? ==> q.url == p.url) &&
    (p.description.Some? ==> q.description == p.description) && (p.wikitext.Some? ==> q.wikitext == p.wikitext)
  }

  datatype Migrated = Migrated(pages: seq<Wikipage>, nextId: nat, rows: seq<LegacyRow>)

  /**
   * One iteration of the chunk loop: skip, or reuse-and-merge, or insert;
   * then back-fill `wikipage_id` when it is null. A found id of 0 is falsy
   * in PHP and leads to an insert.
   */
  function MigrateRow(pages: seq<Wikipage>, nextId: nat, cols: Columns, r: LegacyRow): (m: Migrated)
    ensures |m.rows| == 1
  {
    if NothingToStore(cols, r) then Migrated(pages, nextId, [r])
    else
      var found := Lookup(pages, UrlOf(cols, r), TitleOf(cols, r));
      var (pages', id, nextId') :=
        if found.None? || pages[found.value].id == 0 then (pages + [PageFor(nextId, cols, r)], nextId, nextId + 1)
        else (pages[found.value := Merge(pages[found.value], PageFor(0, cols, r))], pages[found.value].id, nextId);
      Migrated(pages', nextId', [if r.wikipageId.None? then r.(wikipageId := Some(id)) else r])
  }

  /** The loop over the rows in id order, as a function of the rows processed so far. */
  function MigrateAll(pages: seq<Wikipage>, nextId: nat, cols: Columns, rows: seq<LegacyRow>): (m: Migrated)
    ensures |m.rows| == |rows|
  {
    if rows == [] then Migrated(pages, nextId, [])
    else
      var m := MigrateAll(pages, nextId, cols, rows[..|rows| - 1]);
      var s := MigrateRow(m.pages, m.nextId, cols, rows[|rows| - 1]);
      Migrated(s.pages, s.nextId, m.rows + s.rows)
  }

  /**
   * `migrateTable`: nothing happens when the table is missing or has none of
   * the four page columns; otherwise every row is migrated in id order.
   */
  method MigrateTable(pages: seq<Wikipage>, nextId: nat, table: Option<seq<LegacyRow>>, cols: Columns)
    returns (pages': seq<Wikipage>, nextId': nat, table': Option<seq<LegacyRow>>)
    ensures table.None? || !HasPageColumns(cols) ==> pages' == pages && nextId' == nextId && table' == table
    ensures table.Some? && HasPageColumns(cols) ==>
      table'.Some? && Migrated(pages', nextId', table'.value) == MigrateAll(pages, nextId, cols, table.value)
  {
    pages', nextId', table' := pages, nextId, table;
    if table.None? || !HasPageColumns(cols) {
      return;
    }
    var rows := table.value;
    var done: seq<LegacyRow> := [];
    var i := 0;
    while i < |rows|
      invariant 0 <= i <= |rows|
      invariant Migrated(pages', nextId', done) == MigrateAll(pages, nextId, cols, rows[..i])
    {
      var r := rows[i];
      var title := TitleOf(cols, r);
      var url := UrlOf(cols, r);
      assert rows[..i + 1][..i] == rows[..i];
      if NothingToStore(cols, r) {
        done := done + [r];
      } else {
        var found := Lookup(pages', url, title);
        var id;
        if found.None? || pages'[found.value].id == 0 {
          pages' := pages' + [PageFor(nextId', cols, r)];
          id := nextId';
          nextId' := nextId' + 1;
        } else {
          id := pages'[found.value].id;
          pages' := pages'[found.value := Merge(pages'[found.value], PageFor(0, cols, r))];
        }
        if r.wikipageId.None? {
          r := r.(wikipageId := Some(id));
        }
        done := done + [r];
      }
      i := i + 1;
    }
    assert rows[..i] == rows;
    table' := Some(done);
  }

  // ------------------------------------------------------------ one row

  /**
   * One row's effect on the wikipages: a skipped row changes nothing; every
   * existing page keeps its id and its non-null columns; at most one page is
   * appended, carrying the row's values under the next id.
   */
  lemma MigrateRowPages(pages: seq<Wikipage>, nextId: nat, cols: Columns, r: LegacyRow)
    ensures var m := MigrateRow(pages, nextId, cols, r);
      NothingToStore(cols, r) ==> m.pages == pages && m.nextId == nextId
    ensures var m := MigrateRow(pages, nextId, cols, r);
      |pages| <= |m.pages| && (forall k :: 0 <= k < |pages| ==> KeepsValues(pages[k], m.pages[k])) &&
      ((|m.pages| == |pages| && m.nextId == nextId) ||
       (|m.pages| == |pages| + 1 && m.pages[|pages|] == PageFor(nextId, cols, r) && m.nextId == nextId + 1))
  {
  }

  /**
   * One row's back-fill: only `wikipage_id` can change, and only from null;
   * a row with something to store ends up with a page (an existing one or
   * the one appended) whose null columns were filled from the row, and a
   * null `wikipage_id` now points at it.
   */
  lemma MigrateRowLinks(pages: seq<Wikipage>, nextId: nat, cols: Columns, r: LegacyRow)
    ensures var r' := MigrateRow(pages, nextId, cols, r).rows[0];
      r' == r.(wikipageId := r'.wikipageId) && (r.wikipageId.Some? || NothingToStore(cols, r) ==> r' == r)
    ensures var m := MigrateRow(pages, nextId, cols, r);
      !NothingToStore(cols, r) ==>
        exists k :: 0 <= k < |m.pages| &&
          m.pages[k] == Merge(if k < |pages| then pages[k] else PageFor(nextId, cols, r), PageFor(0, cols, r)) &&
          (r.wikipageId.None? ==> m.rows[0].wikipageId == Some(m.pages[k].id))
  {
    if !NothingToStore(cols, r) {
      var m := MigrateRow(pages, nextId, cols, r);
      var found := Lookup(pages, UrlOf(cols, r), TitleOf(cols, r));
      var k := if found.None? || pages[found.value].id == 0 then |pages| else found.value;
      assert m.pages[k] == Merge(if k < |pages| then pages[k] else PageFor(nextId, cols, r), PageFor(0, cols, r));
    }
  }

  /** Auto-increment ids start at 1. */
  predicate IdsPositive(pages: seq<Wikipage>) {
    forall k :: 0 <= k < |pages| ==> pages[k].id != 0
  }

  /**
   * Reuse or insert: a page is appended exactly when the lookup finds none;
   * a page found is merged with the row and linked; with neither a truthy
   * URL nor a truthy title the lookup has no filter and the first wikipage
   * is the one reused.
   */
  lemma MigrateRowReuse(pages: seq<Wikipage>, nextId: nat, cols: Columns, r: LegacyRow)
    requires IdsPositive(pages) && !NothingToStore(cols, r)
    ensures var m := MigrateRow(pages, nextId, cols, r); var found := Lookup(pages, UrlOf(cols, r), TitleOf(cols, r));
      (|m.pages| == |pages| <==> found.Some?) &&
      (found.Some? ==> m.pages[found.value] == Merge(pages[found.value], PageFor(0, cols, r)) &&
                       (r.wikipageId.None? ==> m.rows[0].wikipageId == Some(pages[found.value].id)))
    ensures !Filtered(UrlOf(cols, r), TitleOf(cols, r)) && pages != [] ==>
      Lookup(pages, UrlOf(cols, r), TitleOf(cols, r)) == Some(0)
  {
  }

  // ------------------------------------------------------------ the pass

  /**
   * Over the whole pass, the wikipages only grow at the end, every page keeps
   * its id and its non-null columns, and appended pages take ids from the
   * counter.
   */
  lemma {:induction false} MigrateAllPages(pages: seq<Wikipage>, nextId: nat, cols: Columns, rows: seq<LegacyRow>)
    ensures var m := MigrateAll(pages, nextId, cols, rows);
      |pages| <= |m.pages| && nextId <= m.nextId && (forall k :: 0 <= k < |pages| ==> KeepsValues(pages[k], m.pages[k])) &&
      (forall k :: |pages| <= k < |m.pages| ==> nextId <= m.pages[k].id < m.nextId)
  {
    if rows != [] {
      var m0 := MigrateAll(pages, nextId, cols, rows[..|rows| - 1]);
      MigrateAllPages(pages, nextId, cols, rows[..|rows| - 1]);
      MigrateRowPages(m0.pages, m0.nextId, cols, rows[|rows| - 1]);
      var m := MigrateAll(pages, nextId, cols, rows);
      forall k | 0 <= k < |pages| ensures KeepsValues(pages[k], m.pages[k]) {
        assert KeepsValues(pages[k], m0.pages[k]) && KeepsValues(m0.pages[k], m.pages[k]);
      }
    }
  }

  /**
   * Over the whole pass, only `wikipage_id` changes, only where it was null,
   * and every row that had something to store ends up linked.
   */
  lemma {:induction false} MigrateAllRows(pages: seq<Wikipage>, nextId: nat, cols: Columns, rows: seq<LegacyRow>)
    ensures var m := MigrateAll(pages, nextId, cols, rows);
      forall i :: 0 <= i < |rows| ==>
        m.rows[i] == rows[i].(wikipageId := m.rows[i].wikipageId) &&
        (rows[i].wikipageId.Some? || NothingToStore(cols, rows[i]) ==> m.rows[i] == rows[i]) &&
        (!NothingToStore(cols, rows[i]) ==> m.rows[i].wikipageId.Some?)
  {
    if rows != [] {
      var n := |rows| - 1;
      var m0 := MigrateAll(pages, nextId, cols, rows[..n]);
      MigrateAllRows(pages, nextId, cols, rows[..n]);
      MigrateRowLinks(m0.pages, m0.nextId, cols, rows[n]);
      var m := MigrateAll(pages, nextId, cols, rows);
      forall i | 0 <= i < |rows|
        ensures m.rows[i] == rows[i].(wikipageId := m.rows[i].wikipageId) &&
          (rows[i].wikipageId.Some? || NothingToStore(cols, rows[i]) ==> m.rows[i] == rows[i]) &&
          (!NothingToStore(cols, rows[i]) ==> m.rows[i].wikipageId.Some?)
      {
        if i < n {
          assert m.rows[i] == m0.rows[i] && rows[..n][i] == rows[i];
        }
      }
    }
  }

  /** The row points at one of the pages. */
  predicate LinkedIn(r: LegacyRow, pages: seq<Wikipage>) {
    exists k :: 0 <= k < |pages| && r.wikipageId == Some(pages[k].id)
  }

  /**
   * Every row whose `wikipage_id` the pass filled points at a wikipage that
   * exists once the pass is over.
   */
  lemma {:induction false} MigrateAllLinksExist(pages: seq<Wikipage>, nextId: nat, cols: Columns, rows: seq<LegacyRow>)
    ensures var m := MigrateAll(pages, nextId, cols, rows);
      forall i :: 0 <= i < |rows| && rows[i].wikipageId.None? && !NothingToStore(cols, rows[i]) ==> LinkedIn(m.rows[i], m.pages)
  {
    if rows != [] {
      var n := |rows| - 1;
      var m0 := MigrateAll(pages, nextId, cols, rows[..n]);
      MigrateAllLinksExist(pages, nextId, cols, rows[..n]);
      MigrateRowPages(m0.pages, m0.nextId, cols, rows[n]);
      MigrateRowLinks(m0.pages, m0.nextId, cols, rows[n]);
      var m := MigrateAll(pages, nextId, cols, rows);
      forall i | 0 <= i < |rows| && rows[i].wikipageId.None? && !NothingToStore(cols, rows[i])
        ensures LinkedIn(m.rows[i], m.pages)
      {
        if i < n {
          assert m.rows[i] == m0.rows[i] && rows[..n][i] == rows[i];
          var k :| 0 <= k < |m0.pages| && m0.rows[i].wikipageId == Some(m0.pages[k].id);
          assert KeepsValues(m0.pages[k], m.pages[k]);
        } else {
          assert rows[i] == rows[n] && m.rows[i] == MigrateRow(m0.pages, m0.nextId, cols, rows[n]).rows[0];
        }
      }
    }
  }
}
