/**
 * The data migration that removes every game lacking a developer or a
 * publisher, and then the wikipages those games pointed at that nothing
 * references any more.
 */
module OrphanCleanup {
  import opened Wrappers
  import opened Store

  /** The game has a company pivot row with this role. */
  predicate HasRole(links: set<Link>, gameId: nat, role: string) {
    exists l :: l in links && l.table == Companies && l.gameId == gameId && l.role == Some(role)
  }

  /** The join's condition: no developer row, or no publisher row. */
  predicate Incomplete(links: set<Link>, g: Game) {
    !HasRole(links, g.id, "developer") || !HasRole(links, g.id, "publisher")
  }

  /** `$gameIdsToDelete`, in id order. */
  function DoomedIds(games: seq<Game>, links: set<Link>): (ids: seq<nat>)
    ensures forall id :: id in ids <==> exists i :: 0 <= i < |games| && Incomplete(links, games[i]) && games[i].id == id
    ensures ids == [] <==> forall i :: 0 <= i < |games| ==> !Incomplete(links, games[i])
  {
    if games == [] then []
    else
      var n := |games| - 1;
      assert forall i :: 0 <= i < n ==> games[..n][i] == games[i];
      DoomedIds(games[..n], links) + if Incomplete(links, games[n]) then [games[n].id] else []
  }

  /** `$wikipageIdsCandidate`: the non-null wikipage ids of the doomed games. */
  function CandidateIds(games: seq<Game>, links: set<Link>): (ids: seq<nat>)
    ensures forall id :: id in ids <==> exists i :: 0 <= i < |games| && Incomplete(links, games[i]) && games[i].wikipageId == Some(id)
  {
    if games == [] then []
    else
      var n := |games| - 1;
      assert forall i :: 0 <= i < n ==> games[..n][i] == games[i];
      CandidateIds(games[..n], links) + if Incomplete(links, games[n]) && games[n].wikipageId.Some? then [games[n].wikipageId.value] else []
  }

  /** `whereIn('id', $ids)->delete()` on the games. */
  function DropGames(games: seq<Game>, ids: seq<nat>): (r: seq<Game>)
    ensures forall g :: g in r <==> g in games && g.id !in ids
  {
    if games == [] then []
    else
      var n := |games| - 1;
      assert games == games[..n] + [games[n]];
      DropGames(games[..n], ids) + if games[n].id in ids then [] else [games[n]]
  }

  /** `whereIn('id', $toDelete)->delete()` on the wikipages. */
  function DropPages(pages: seq<Wikipage>, ids: set<nat>): (r: seq<Wikipage>)
    ensures forall p :: p in r <==> p in pages && p.id !in ids
  {
    if pages == [] then []
    else
      var n := |pages| - 1;
      assert pages == pages[..n] + [pages[n]];
      DropPages(pages[..n], ids) + if pages[n].id in ids then [] else [pages[n]]
  }

  /** Some game or company or taxonomy row points at the wikipage. */
  predicate ReferencedBy(t: Tables, id: nat)
    requires Complete(t)
  {
    (exists g :: g in t.games && g.wikipageId == Some(id)) ||
    (exists table, e :: table in AllTables && e in RowsIn(t, table) && e.wikipageId == Some(id))
  }

  /** The pivot rows left once the games are deleted: the foreign keys cascade. */
  function CascadeLinks(links: set<Link>, ids: seq<nat>): set<Link> {
    set l | l in links && l.gameId !in ids
  }

  /** The game deletion alone. */
  function WithoutGames(t: Tables, ids: seq<nat>): (r: Tables)
    ensures r.wikipages == t.wikipages && r.entities == t.entities && r.nextId == t.nextId
  {
    t.(games := DropGames(t.games, ids), links := CascadeLinks(t.links, ids))
  }

  /** The candidates nothing references once the games are gone. */
  function Orphans(t1: Tables, candidates: seq<nat>): set<nat>
    requires Complete(t1)
  {
    set id | id in candidates && !ReferencedBy(t1, id)
  }

  /** The whole migration on the database; `hasCoreTables` says the games and game-company tables exist. */
  function Cleanup(t: Tables, hasCoreTables: bool): Tables
    requires Complete(t)
  {
    var ids := DoomedIds(t.games, t.links);
    if !hasCoreTables || ids == [] then t
    else
      var t1 := WithoutGames(t, ids);
      var candidates := CandidateIds(t.games, t.links);
      if candidates == [] then t1
      else t1.(wikipages := DropPages(t.wikipages, Orphans(t1, candidates)))
  }

  // ------------------------------------------------------------ the method

  /** The reference tables after the games, in the order the migration visits them. */
  const EntityTables: seq<Table> := [Companies, Engines, Genres, Modes, Platforms, SeriesTable]

  /** The `whereIn('wikipage_id', $candidates)->distinct()->pluck('wikipage_id')` query on the games. */
  function GameRefs(games: seq<Game>, candidates: set<nat>): set<nat> {
    set g, id | g in games && g.wikipageId == Some(id) && id in candidates :: id
  }

  /** The same query on a company or taxonomy table. */
  function EntityRefs(rows: seq<Entity>, candidates: set<nat>): set<nat> {
    set e, id | e in rows && e.wikipageId == Some(id) && id in candidates :: id
  }

  /** `$stillReferenced` after visiting the given entity tables. */
  function RefsIn(t: Tables, tables: seq<Table>, candidates: set<nat>): (r: set<nat>)
    requires Complete(t)
    ensures forall id :: id in r <==> id in candidates && exists j, e :: 0 <= j < |tables| && e in RowsIn(t, tables[j]) && e.wikipageId == Some(id)
  {
    if tables == [] then {}
    else
      var n := |tables| - 1;
      var r := RefsIn(t, tables[..n], candidates) + EntityRefs(RowsIn(t, tables[n]), candidates);
      assert forall j :: 0 <= j < n ==> tables[..n][j] == tables[j];
      r
  }

  /** Visiting the games and the six entity tables finds exactly the referenced candidates. */
  lemma StillReferencedExactly(t: Tables, candidates: set<nat>)
    requires Complete(t)
    ensures GameRefs(t.games, candidates) + RefsIn(t, EntityTables, candidates) == set id | id in candidates && ReferencedBy(t, id)
  {
    var lhs := GameRefs(t.games, candidates) + RefsIn(t, EntityTables, candidates);
    forall id | id in candidates && ReferencedBy(t, id) ensures id in lhs {
      if !(exists g :: g in t.games && g.wikipageId == Some(id)) {
        var table, e :| table in AllTables && e in RowsIn(t, table) && e.wikipageId == Some(id);
        var j := if table == Companies then 0 else if table == Engines then 1 else if table == Genres then 2
                 else if table == Modes then 3 else if table == Platforms then 4 else 5;
        assert EntityTables[j] == table;
      }
    }
    forall id | id in lhs ensures ReferencedBy(t, id) {
      if id !in GameRefs(t.games, candidates) {
        var j, e :| 0 <= j < |EntityTables| && e in RowsIn(t, EntityTables[j]) && e.wikipageId == Some(id);
        TableInAll(EntityTables[j]);
      }
    }
  }

  /** The chunk loop over the games: the doomed ids and the candidate wikipages, in id order. */
  method CollectDoomed(games: seq<Game>, links: set<Link>) returns (gameIds: seq<nat>, candidates: seq<nat>)
    ensures gameIds == DoomedIds(games, links) && candidates == CandidateIds(games, links)
  {
    gameIds, candidates := [], [];
    var i := 0;
    while i < |games|
      invariant 0 <= i <= |games|
      invariant gameIds == DoomedIds(games[..i], links)
      invariant candidates == CandidateIds(games[..i], links)
    {
      var g := games[i];
      assert games[..i + 1][..i] == games[..i];
      if !HasRole(links, g.id, "developer") || !HasRole(links, g.id, "publisher") {
        gameIds := gameIds + [g.id];
        if g.wikipageId.Some? {
          candidates := candidates + [g.wikipageId.value];
        }
      }
      i := i + 1;
    }
    assert games[..i] == games;
  }

  /** One more table visited. */
  lemma RefsInStep(t: Tables, tables: seq<Table>, j: nat, candidates: set<nat>)
    requires Complete(t) && j < |tables|
    ensures RefsIn(t, tables[..j + 1], candidates) == RefsIn(t, tables[..j], candidates) + EntityRefs(RowsIn(t, tables[j]), candidates)
  {
    assert tables[..j + 1][..j] == tables[..j];
  }

  /** The loop over the reference tables: the candidates some row still points at. */
  method CollectReferenced(t: Tables, candidates: set<nat>) returns (stillReferenced: set<nat>)
    requires Complete(t)
    ensures stillReferenced == set id | id in candidates && ReferencedBy(t, id)
  {
    stillReferenced := GameRefs(t.games, candidates);
    var j := 0;
    while j < |EntityTables|
      invariant 0 <= j <= |EntityTables|
      invariant stillReferenced == GameRefs(t.games, candidates) + RefsIn(t, EntityTables[..j], candidates)
    {
      RefsInStep(t, EntityTables, j, candidates);
      stillReferenced := stillReferenced + EntityRefs(RowsIn(t, EntityTables[j]), candidates);
      j := j + 1;
    }
    assert EntityTables[..j] == EntityTables;
    StillReferencedExactly(t, candidates);
  }

  /**
   * The migration: the doomed games go (their pivot rows with them), then
   * the candidates no remaining row references.
   */
  method RemoveIncompleteGames(t: Tables, hasCoreTables: bool) returns (t': Tables)
    requires Complete(t)
    ensures t' == Cleanup(t, hasCoreTables)
  {
    if !hasCoreTables {
      return t;
    }
    var gameIds, candidates := CollectDoomed(t.games, t.links);
    if gameIds == [] {
      return t;
    }
    t' := WithoutGames(t, gameIds);
    if candidates != [] {
      var unique := set id | id in candidates;
      var stillReferenced := CollectReferenced(t', unique);
      var toDelete := set id | id in unique && id !in stillReferenced;
      assert toDelete == Orphans(t', candidates);
      t' := t'.(wikipages := DropPages(t.wikipages, toDelete));
    }
  }

  // ------------------------------------------------------------ properties

  /** Game ids are distinct. */
  predicate GameIdsDistinct(games: seq<Game>) {
    forall i, j :: 0 <= i < j < |games| ==> games[i].id != games[j].id
  }

  /**
   * A game survives exactly when it has both a developer and a publisher;
   * the company and taxonomy tables are untouched, and so are the pivot rows
   * of the surviving games.
   */
  lemma GamesKept(t: Tables, hasCoreTables: bool)
    requires Complete(t) && hasCoreTables && GameIdsDistinct(t.games)
    ensures var c := Cleanup(t, hasCoreTables);
      forall g :: g in c.games <==> g in t.games && !Incomplete(t.links, g)
    ensures var c := Cleanup(t, hasCoreTables);
      c.entities == t.entities &&
      forall l :: l in t.links && (exists g :: g in c.games && g.id == l.gameId) ==> l in c.links
  {
    var ids := DoomedIds(t.games, t.links);
    forall g | g in t.games && Incomplete(t.links, g) ensures g.id in ids {
      var k :| 0 <= k < |t.games| && t.games[k] == g;
    }
    forall g | g in t.games && !Incomplete(t.links, g) ensures g.id !in ids {
      var k :| 0 <= k < |t.games| && t.games[k] == g;
    }
  }

  /**
   * A wikipage is deleted exactly when it belonged to a deleted game and no
   * remaining game or company or taxonomy row references it; in particular
   * wikipages that were not a deleted game's are never deleted.
   */
  lemma PagesKept(t: Tables, hasCoreTables: bool)
    requires Complete(t)
    ensures var c := Cleanup(t, hasCoreTables); var ids := DoomedIds(t.games, t.links);
      hasCoreTables && ids != [] ==>
        forall p :: p in c.wikipages <==>
          p in t.wikipages &&
          !((exists i :: 0 <= i < |t.games| && Incomplete(t.links, t.games[i]) && t.games[i].wikipageId == Some(p.id)) &&
            !ReferencedBy(WithoutGames(t, ids), p.id))
    ensures var c := Cleanup(t, hasCoreTables);
      forall p :: p in t.wikipages && p !in c.wikipages ==>
        exists i :: 0 <= i < |t.games| && Incomplete(t.links, t.games[i]) && t.games[i].wikipageId == Some(p.id)
  {
  }

  /** References are read off the games and the company and taxonomy rows alone. */
  lemma ReferencedBySameRows(t: Tables, u: Tables, id: nat)
    requires Complete(t) && Complete(u) && t.games == u.games && t.entities == u.entities
    ensures ReferencedBy(t, id) == ReferencedBy(u, id)
  {
    assert forall table :: table in AllTables ==> RowsIn(t, table) == RowsIn(u, table);
  }

  /** No remaining row points at a wikipage the migration deleted. */
  lemma NoDanglingPages(t: Tables, hasCoreTables: bool)
    requires Complete(t)
    ensures var c := Cleanup(t, hasCoreTables);
      forall p :: p in t.wikipages && p !in c.wikipages ==> !ReferencedBy(c, p.id)
  {
    var ids := DoomedIds(t.games, t.links);
    var candidates := CandidateIds(t.games, t.links);
    if hasCoreTables && ids != [] && candidates != [] {
      var t1 := WithoutGames(t, ids);
      var c := t1.(wikipages := DropPages(t.wikipages, Orphans(t1, candidates)));
      assert c == Cleanup(t, hasCoreTables);
      forall p | p in t.wikipages && p !in c.wikipages ensures !ReferencedBy(c, p.id) {
        assert p.id in Orphans(t1, candidates);
        ReferencedBySameRows(c, t1, p.id);
      }
    }
  }

  /** Nothing changes when no game qualifies, and a second run changes nothing. */
  lemma CleanupIdempotent(t: Tables, hasCoreTables: bool)
    requires Complete(t) && GameIdsDistinct(t.games)
    ensures DoomedIds(t.games, t.links) == [] ==> Cleanup(t, hasCoreTables) == t
    ensures Cleanup(Cleanup(t, hasCoreTables), hasCoreTables) == Cleanup(t, hasCoreTables)
  {
    var c := Cleanup(t, hasCoreTables);
    if hasCoreTables && DoomedIds(t.games, t.links) != [] {
      var ids := DoomedIds(t.games, t.links);
      GamesKept(t, hasCoreTables);
      forall g | g in c.games ensures !Incomplete(c.links, g) {
        assert g.id !in ids;
        var dev :| dev in t.links && dev.table == Companies && dev.gameId == g.id && dev.role == Some("developer");
        var pub :| pub in t.links && pub.table == Companies && pub.gameId == g.id && pub.role == Some("publisher");
        assert dev in c.links && pub in c.links;
      }
      assert forall i :: 0 <= i < |c.games| ==> c.games[i] in c.games;
      assert DoomedIds(c.games, c.links) == [];
    }
  }
}
