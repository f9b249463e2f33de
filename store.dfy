/**
 * The database tables the page jobs read and write, held in memory. Each
 * table is a sequence of rows in primary-key order, so `first()` is the
 * first matching row; a relation is a set of pivot rows.
 */
module Store {
  import opened Wrappers
  import opened PhpStrings

  datatype Wikipage = Wikipage(id: nat, title: Option<string>, url: Option<string>, description: Option<string>, wikitext: Option<string>)

  datatype Game = Game(id: nat, wikipageId: Option<nat>, cleanTitle: Option<string>, cover: Option<string>, releaseDate: Option<string>, releaseYear: Option<int>)

  /**
   * A row of a company or taxonomy table. The tables share one shape;
   * a column a table does not have stays null.
   */
  datatype Entity = Entity(
    id: nat, name: Option<string>, wikipageId: Option<nat>, cleanName: Option<string>,
    cover: Option<string>, founded: Option<int>, releaseDate: Option<string>, website: Option<string>,
    title: Option<string>, url: Option<string>, description: Option<string>, wikitext: Option<string>)

  datatype Table = Companies | Platforms | Engines | Genres | Modes | SeriesTable

  /** A pivot row linking a game to a row of `table`; only company links carry a role. */
  datatype Link = Link(table: Table, gameId: nat, otherId: nat, role: Option<string>)

  /** A column of a `fill` payload: left as it is, or set to a value. */
  datatype Assign<T> = Keep | Put(value: T)

  function Assigned<T>(a: Assign<T>, current: T): T {
    if a.Put? then a.value else current
  }

  /** The columns a job's payload array names; `name` and `id` are never among them. */
  datatype Payload = Payload(
    wikipageId: Assign<Option<nat>>, cleanName: Assign<Option<string>>, cover: Assign<Option<string>>,
    founded: Assign<Option<int>>, releaseDate: Assign<Option<string>>, website: Assign<Option<string>>,
    title: Assign<Option<string>>, url: Assign<Option<string>>, description: Assign<Option<string>>,
    wikitext: Assign<Option<string>>)

  /** A row created with only its name (`firstOrCreate(['name' => ...])`). */
  function Blank(id: nat, name: string): (e: Entity)
    ensures e.id == id && e.name == Some(name)
  {
    Entity(id, Some(name), None, None, None, None, None, None, None, None, None, None)
  }

  /** `$model->fill($payload)`: every column named in the payload takes its value. */
  function Fill(e: Entity, p: Payload): (r: Entity)
    ensures r.id == e.id && r.name == e.name
  {
    e.(wikipageId := Assigned(p.wikipageId, e.wikipageId), cleanName := Assigned(p.cleanName, e.cleanName),
       cover := Assigned(p.cover, e.cover), founded := Assigned(p.founded, e.founded),
       releaseDate := Assigned(p.releaseDate, e.releaseDate), website := Assigned(p.website, e.website),
       title := Assigned(p.title, e.title), url := Assigned(p.url, e.url),
       description := Assigned(p.description, e.description), wikitext := Assigned(p.wikitext, e.wikitext))
  }

  // ------------------------------------------------------------- queries

  /** The first row at or after i satisfying p (`where(...)->first()`). */
  function FirstFrom<R>(rows: seq<R>, p: R -> bool, i: nat): (r: Option<nat>)
    requires i <= |rows|
    ensures r.Some? ==> i <= r.value < |rows| && p(rows[r.value]) && forall j :: i <= j < r.value ==> !p(rows[j])
    ensures r.None? ==> forall j :: i <= j < |rows| ==> !p(rows[j])
    decreases |rows| - i
  {
    if i == |rows| then None else if p(rows[i]) then Some(i) else FirstFrom(rows, p, i + 1)
  }

  function First<R>(rows: seq<R>, p: R -> bool): (r: Option<nat>)
    ensures r.Some? ==> r.value < |rows| && p(rows[r.value]) && forall j :: 0 <= j < r.value ==> !p(rows[j])
    ensures r.None? ==> forall j :: 0 <= j < |rows| ==> !p(rows[j])
  {
    FirstFrom(rows, p, 0)
  }

  /** No two rows share a (non-null) name. */
  predicate NamesUnique(rows: seq<Entity>) {
    forall i, j :: 0 <= i < j < |rows| && rows[i].name.Some? ==> rows[i].name != rows[j].name
  }

  predicate IdsBelow(rows: seq<Entity>, bound: nat) {
    forall i :: 0 <= i < |rows| ==> rows[i].id < bound
  }

  /** The result of an upsert: the new table, the id of the row written, the next free id. */
  datatype Upserted<R> = Upserted(rows: seq<R>, id: nat, nextId: nat)

  // ------------------------------------------------------------ wikipages

  predicate PageMatches(w: Wikipage, url: string, title: string) {
    w.url == Some(url) || w.title == Some(title)
  }

  /**
   * `Wikipage::where('wikipedia_url', $url)->orWhere('title', $title)->first()`,
   * then `fill($payload)->save()` on a match or `create($payload)`.
   */
  function UpsertWikipage(rows: seq<Wikipage>, nextId: nat, title: string, url: string, description: Option<string>, wikitext: Option<string>): Upserted<Wikipage> {
    match First(rows, (w: Wikipage) => PageMatches(w, url, title))
    case Some(i) =>
      Upserted(rows[i := rows[i].(title := Some(title), url := Some(url), description := description, wikitext := wikitext)], rows[i].id, nextId)
    case None =>
      Upserted(rows + [Wikipage(nextId, Some(title), Some(url), description, wikitext)], nextId, nextId + 1)
  }

  /**
   * The wikipage written carries the payload; a match is updated in place
   * and nothing is added, otherwise exactly one row is appended.
   */
  lemma UpsertWikipageEffect(rows: seq<Wikipage>, nextId: nat, title: string, url: string, description: Option<string>, wikitext: Option<string>)
    ensures var u := UpsertWikipage(rows, nextId, title, url, description, wikitext);
      exists k :: 0 <= k < |u.rows| && u.rows[k] == Wikipage(u.id, Some(title), Some(url), description, wikitext)
    ensures var u := UpsertWikipage(rows, nextId, title, url, description, wikitext);
      (exists j :: 0 <= j < |rows| && PageMatches(rows[j], url, title)) <==> |u.rows| == |rows|
    ensures var u := UpsertWikipage(rows, nextId, title, url, description, wikitext);
      |u.rows| == |rows| || (|u.rows| == |rows| + 1 && u.rows[..|rows|] == rows && u.id == nextId)
    ensures var u := UpsertWikipage(rows, nextId, title, url, description, wikitext);
      forall j :: 0 <= j < |rows| && rows[j].id != u.id ==> u.rows[j] == rows[j]
  {
    var u := UpsertWikipage(rows, nextId, title, url, description, wikitext);
    match First(rows, (w: Wikipage) => PageMatches(w, url, title))
    case Some(i) =>
      assert u.rows[i] == Wikipage(u.id, Some(title), Some(url), description, wikitext);
    case None =>
      assert u.rows[|rows|] == Wikipage(u.id, Some(title), Some(url), description, wikitext);
  }

  /**
   * Saving the same title and URL again finds the row the first save wrote:
   * the same id, and no row added, whatever the new description and wikitext.
   */
  lemma UpsertWikipageRerun(rows: seq<Wikipage>, nextId: nat, title: string, url: string, description: Option<string>, wikitext: Option<string>,
                            nextId': nat, description': Option<string>, wikitext': Option<string>)
    ensures var u := UpsertWikipage(rows, nextId, title, url, description, wikitext);
      var u' := UpsertWikipage(u.rows, nextId', title, url, description', wikitext');
      u'.id == u.id && |u'.rows| == |u.rows| && u'.nextId == nextId'
  {
    var u := UpsertWikipage(rows, nextId, title, url, description, wikitext);
    var u' := UpsertWikipage(u.rows, nextId', title, url, description', wikitext');
    var i := match First(rows, (w: Wikipage) => PageMatches(w, url, title)) case Some(i) => i case None => |rows|;
    assert i < |u.rows| && PageMatches(u.rows[i], url, title) && u.rows[i].id == u.id;
    assert forall j :: 0 <= j < i ==> u.rows[j] == rows[j];
    assert First(u.rows, (w: Wikipage) => PageMatches(w, url, title)) == Some(i);
  }

  /** `$record->wikipage`: the wikipage a row's `wikipage_id` points at. */
  function WikipageOf(pages: seq<Wikipage>, wikipageId: Option<nat>): Option<Wikipage> {
    match wikipageId
    case None => None
    case Some(id) =>
      match First(pages, (w: Wikipage) => w.id == id)
      case None => None
      case Some(i) => Some(pages[i])
  }

  // ---------------------------------------------------------------- games

  /** The game payload: every column is written. */
  datatype GameFields = GameFields(cleanTitle: Option<string>, cover: Option<string>, releaseDate: Option<string>, releaseYear: Option<int>)

  predicate GameOf(g: Game, wikipageId: nat) { g.wikipageId == Some(wikipageId) }

  /** `Game::where('wikipage_id', $id)->first()`, then fill-and-save or create. */
  function UpsertGame(rows: seq<Game>, nextId: nat, wikipageId: nat, f: GameFields): Upserted<Game> {
    var g := Game(0, Some(wikipageId), f.cleanTitle, f.cover, f.releaseDate, f.releaseYear);
    match First(rows, (r: Game) => GameOf(r, wikipageId))
    case Some(i) => Upserted(rows[i := g.(id := rows[i].id)], rows[i].id, nextId)
    case None => Upserted(rows + [g.(id := nextId)], nextId, nextId + 1)
  }

  function CountGamesOf(rows: seq<Game>, wikipageId: nat): (n: nat)
    ensures n <= |rows|
  {
    if rows == [] then 0 else (if GameOf(rows[0], wikipageId) then 1 else 0) + CountGamesOf(rows[1..], wikipageId)
  }

  lemma {:induction false} CountGamesOfUpdate(rows: seq<Game>, i: nat, g: Game, wikipageId: nat)
    requires i < |rows| && GameOf(rows[i], wikipageId) == GameOf(g, wikipageId)
    ensures CountGamesOf(rows[i := g], wikipageId) == CountGamesOf(rows, wikipageId)
  {
    if i > 0 {
      assert rows[i := g][1..] == rows[1..][i - 1 := g];
      CountGamesOfUpdate(rows[1..], i - 1, g, wikipageId);
    }
  }

  lemma {:induction false} CountGamesOfNone(rows: seq<Game>, wikipageId: nat)
    requires forall j :: 0 <= j < |rows| ==> !GameOf(rows[j], wikipageId)
    ensures CountGamesOf(rows, wikipageId) == 0
  {
    if rows != [] {
      CountGamesOfNone(rows[1..], wikipageId);
    }
  }

  lemma {:induction false} CountGamesOfAppend(rows: seq<Game>, g: Game, wikipageId: nat)
    ensures CountGamesOf(rows + [g], wikipageId) == CountGamesOf(rows, wikipageId) + (if GameOf(g, wikipageId) then 1 else 0)
  {
    if rows == [] {
      assert rows + [g] == [g];
    } else {
      assert (rows + [g])[1..] == rows[1..] + [g];
      CountGamesOfAppend(rows[1..], g, wikipageId);
    }
  }

  /**
   * Games are keyed by wikipage: after the upsert exactly one game points at
   * the wikipage when none or one did before, so re-processing a page never
   * adds a second game.
   */
  lemma UpsertGameKeepsOne(rows: seq<Game>, nextId: nat, wikipageId: nat, f: GameFields)
    requires CountGamesOf(rows, wikipageId) <= 1
    ensures CountGamesOf(UpsertGame(rows, nextId, wikipageId, f).rows, wikipageId) == 1
  {
    var g := Game(0, Some(wikipageId), f.cleanTitle, f.cover, f.releaseDate, f.releaseYear);
    match First(rows, (r: Game) => GameOf(r, wikipageId))
    case Some(i) =>
      CountGamesOfUpdate(rows, i, g.(id := rows[i].id), wikipageId);
      assert GameOf(rows[i], wikipageId);
      if CountGamesOf(rows, wikipageId) == 0 {
        CountGamesOfPositive(rows, i, wikipageId);
      }
    case None =>
      CountGamesOfNone(rows, wikipageId);
      CountGamesOfAppend(rows, g.(id := nextId), wikipageId);
  }

  /** No wikipage has two games. */
  ghost predicate OneGameEach(rows: seq<Game>) {
    forall wikipageId :: CountGamesOf(rows, wikipageId) <= 1
  }

  /** The upsert keeps every wikipage at one game at most, and the saved one at exactly one. */
  lemma UpsertGameOneEach(rows: seq<Game>, nextId: nat, wikipageId: nat, f: GameFields)
    requires OneGameEach(rows)
    ensures OneGameEach(UpsertGame(rows, nextId, wikipageId, f).rows)
    ensures CountGamesOf(UpsertGame(rows, nextId, wikipageId, f).rows, wikipageId) == 1
  {
    var g := Game(0, Some(wikipageId), f.cleanTitle, f.cover, f.releaseDate, f.releaseYear);
    var u := UpsertGame(rows, nextId, wikipageId, f);
    UpsertGameKeepsOne(rows, nextId, wikipageId, f);
    forall other | other != wikipageId ensures CountGamesOf(u.rows, other) <= 1 {
      match First(rows, (r: Game) => GameOf(r, wikipageId))
      case Some(i) =>
        CountGamesOfUpdate(rows, i, g.(id := rows[i].id), other);
      case None =>
        CountGamesOfAppend(rows, g.(id := nextId), other);
    }
  }

  /** Saving the game of the same wikipage again updates the row the first save wrote. */
  lemma UpsertGameRerun(rows: seq<Game>, nextId: nat, wikipageId: nat, f: GameFields, nextId': nat, f': GameFields)
    ensures var u := UpsertGame(rows, nextId, wikipageId, f);
      var u' := UpsertGame(u.rows, nextId', wikipageId, f');
      u'.id == u.id && |u'.rows| == |u.rows| && u'.nextId == nextId'
  {
    var u := UpsertGame(rows, nextId, wikipageId, f);
    var i := match First(rows, (r: Game) => GameOf(r, wikipageId)) case Some(i) => i case None => |rows|;
    assert i < |u.rows| && GameOf(u.rows[i], wikipageId) && u.rows[i].id == u.id;
    assert forall j :: 0 <= j < i ==> u.rows[j] == rows[j];
    assert First(u.rows, (r: Game) => GameOf(r, wikipageId)) == Some(i);
  }

  lemma {:induction false} CountGamesOfPositive(rows: seq<Game>, i: nat, wikipageId: nat)
    requires i < |rows| && GameOf(rows[i], wikipageId)
    ensures CountGamesOf(rows, wikipageId) >= 1
  {
    if i > 0 {
      CountGamesOfPositive(rows[1..], i - 1, wikipageId);
    }
  }

  // --------------------------------------------------- companies and taxa

  predicate Named(e: Entity, name: string) { e.name == Some(name) }

  /** `firstOrCreate(['name' => $name])`. */
  function FirstOrCreate(rows: seq<Entity>, nextId: nat, name: string): Upserted<Entity> {
    match First(rows, (e: Entity) => Named(e, name))
    case Some(i) => Upserted(rows, rows[i].id, nextId)
    case None => Upserted(rows + [Blank(nextId, name)], nextId, nextId + 1)
  }

  /**
   * The row found or created has the name; a row is added only when no row
   * had it, so names never duplicate.
   */
  lemma FirstOrCreateEffect(rows: seq<Entity>, nextId: nat, name: string)
    ensures var u := FirstOrCreate(rows, nextId, name);
      u.rows[..|rows|] == rows && (exists k :: 0 <= k < |u.rows| && u.rows[k].id == u.id && Named(u.rows[k], name))
    ensures var u := FirstOrCreate(rows, nextId, name);
      (exists j :: 0 <= j < |rows| && Named(rows[j], name)) <==> u.rows == rows
    ensures var u := FirstOrCreate(rows, nextId, name);
      NamesUnique(rows) ==> NamesUnique(u.rows)
    ensures IdsBelow(rows, nextId) ==> IdsBelow(FirstOrCreate(rows, nextId, name).rows, FirstOrCreate(rows, nextId, name).nextId)
  {
    var u := FirstOrCreate(rows, nextId, name);
    assert rows[..|rows|] == rows;
    match First(rows, (e: Entity) => Named(e, name))
    case Some(i) =>
    case None =>
      assert u.rows[|rows|].id == u.id && Named(u.rows[|rows|], name);
      assert u.rows != rows by { assert |u.rows| != |rows|; }
  }

  /** The rows, ids and next id after resolving a list of names. */
  datatype Resolved = Resolved(rows: seq<Entity>, ids: seq<nat>, nextId: nat)

  /** `getIdsFor`: firstOrCreate each name in order, collecting ids. */
  function IdsFor(rows: seq<Entity>, nextId: nat, names: seq<string>): (r: Resolved)
    ensures |r.ids| == |names|
  {
    if names == [] then Resolved(rows, [], nextId)
    else
      var r := IdsFor(rows, nextId, names[..|names| - 1]);
      var u := FirstOrCreate(r.rows, r.nextId, names[|names| - 1]);
      Resolved(u.rows, r.ids + [u.id], u.nextId)
  }

  lemma IdsForSnoc(rows: seq<Entity>, nextId: nat, names: seq<string>, i: nat)
    requires i < |names|
    ensures var r := IdsFor(rows, nextId, names[..i]);
      var u := FirstOrCreate(r.rows, r.nextId, names[i]);
      IdsFor(rows, nextId, names[..i + 1]) == Resolved(u.rows, r.ids + [u.id], u.nextId)
  {
    assert names[..i + 1][..i] == names[..i];
  }

  /**
   * Every id returned belongs to a row carrying the corresponding name;
   * existing rows are kept and names stay unique.
   */
  lemma IdsForEffect(rows: seq<Entity>, nextId: nat, names: seq<string>)
    ensures var r := IdsFor(rows, nextId, names);
      |rows| <= |r.rows| && r.rows[..|rows|] == rows
    ensures var r := IdsFor(rows, nextId, names);
      forall i :: 0 <= i < |names| ==> exists k :: 0 <= k < |r.rows| && r.rows[k].id == r.ids[i] && Named(r.rows[k], names[i])
    ensures NamesUnique(rows) ==> NamesUnique(IdsFor(rows, nextId, names).rows)
  {
    IdsForUnique(rows, nextId, names);
    IdsForNamed(rows, nextId, names);
  }

  /** Resolving names never duplicates a name. */
  lemma {:induction false} IdsForUnique(rows: seq<Entity>, nextId: nat, names: seq<string>)
    ensures NamesUnique(rows) ==> NamesUnique(IdsFor(rows, nextId, names).rows)
  {
    if names != [] {
      var prefix := names[..|names| - 1];
      IdsForUnique(rows, nextId, prefix);
      var r := IdsFor(rows, nextId, prefix);
      FirstOrCreateEffect(r.rows, r.nextId, names[|names| - 1]);
    }
  }

  /** Resolving names keeps the existing rows and gives every name a row carrying it. */
  lemma {:induction false} IdsForNamed(rows: seq<Entity>, nextId: nat, names: seq<string>)
    ensures var r := IdsFor(rows, nextId, names);
      |rows| <= |r.rows| && r.rows[..|rows|] == rows
    ensures var r := IdsFor(rows, nextId, names);
      forall i :: 0 <= i < |names| ==> exists k :: 0 <= k < |r.rows| && r.rows[k].id == r.ids[i] && Named(r.rows[k], names[i])
  {
    if names != [] {
      var prefix := names[..|names| - 1];
      var r := IdsFor(rows, nextId, prefix);
      IdsForNamed(rows, nextId, prefix);
      var name := names[|names| - 1];
      var u := FirstOrCreate(r.rows, r.nextId, name);
      FirstOrCreateEffect(r.rows, r.nextId, name);
      var r' := IdsFor(rows, nextId, names);
      assert r'.rows == u.rows;
      assert u.rows[..|rows|] == rows by {
        assert u.rows[..|r.rows|] == r.rows;
      }
      forall i | 0 <= i < |names|
        ensures exists k :: 0 <= k < |r'.rows| && r'.rows[k].id == r'.ids[i] && Named(r'.rows[k], names[i])
      {
        if i < |prefix| {
          assert names[i] == prefix[i];
          var k :| 0 <= k < |r.rows| && r.rows[k].id == r.ids[i] && Named(r.rows[k], prefix[i]);
          assert u.rows[k] == r.rows[k];
          assert r'.ids[i] == r.ids[i];
        }
      }
    }
  }

  /** A name that already has a row resolves to it: nothing is created. */
  lemma ExistingNameReused(rows: seq<Entity>, nextId: nat, name: string, j: nat)
    requires NamesUnique(rows) && j < |rows| && Named(rows[j], name)
    ensures FirstOrCreate(rows, nextId, name) == Upserted(rows, rows[j].id, nextId)
  {
  }

  predicate EntityMatches(e: Entity, name: string, wikipageId: Option<nat>, url: Option<string>) {
    Named(e, name) || (wikipageId.Some? && e.wikipageId == wikipageId) || (url.Some? && e.url == url)
  }

  /**
   * `where('name', $title)->orWhere(<wikipage_id or wikipedia_url>)->first()`,
   * then `fill($payload)->save()` on a match, or `create(['name' => $title] + $payload)`.
   */
  function UpsertEntity(rows: seq<Entity>, nextId: nat, name: string, wikipageId: Option<nat>, url: Option<string>, p: Payload): Upserted<Entity> {
    match First(rows, (e: Entity) => EntityMatches(e, name, wikipageId, url))
    case Some(i) => Upserted(rows[i := Fill(rows[i], p)], rows[i].id, nextId)
    case None => Upserted(rows + [Fill(Blank(nextId, name), p)], nextId, nextId + 1)
  }

  /**
   * The upserted row carries the payload; a match keeps its name and no row
   * is added, otherwise one row named after the page is appended. Names stay
   * unique, and every other row is untouched.
   */
  lemma UpsertEntityEffect(rows: seq<Entity>, nextId: nat, name: string, wikipageId: Option<nat>, url: Option<string>, p: Payload)
    ensures var u := UpsertEntity(rows, nextId, name, wikipageId, url, p);
      exists k :: 0 <= k < |u.rows| && u.rows[k].id == u.id &&
        (u.rows[k] == Fill(Blank(u.id, name), p) || (k < |rows| && EntityMatches(rows[k], name, wikipageId, url) && u.rows[k] == Fill(rows[k], p)))
    ensures var u := UpsertEntity(rows, nextId, name, wikipageId, url, p);
      (exists j :: 0 <= j < |rows| && EntityMatches(rows[j], name, wikipageId, url)) <==> |u.rows| == |rows|
    ensures var u := UpsertEntity(rows, nextId, name, wikipageId, url, p);
      |u.rows| == |rows| + 1 ==> u.rows[..|rows|] == rows && u.rows[|rows|] == Fill(Blank(nextId, name), p)
    ensures var u := UpsertEntity(rows, nextId, name, wikipageId, url, p);
      forall j :: 0 <= j < |rows| ==> u.rows[j].name == rows[j].name && (u.rows[j] == rows[j] || u.rows[j] == Fill(rows[j], p))
    ensures NamesUnique(rows) ==> NamesUnique(UpsertEntity(rows, nextId, name, wikipageId, url, p).rows)
  {
    var u := UpsertEntity(rows, nextId, name, wikipageId, url, p);
    match First(rows, (e: Entity) => EntityMatches(e, name, wikipageId, url))
    case Some(i) =>
      assert u.rows[i].id == u.id && EntityMatches(rows[i], name, wikipageId, url) && u.rows[i] == Fill(rows[i], p);
    case None =>
      assert u.rows[|rows|].id == u.id && u.rows[|rows|] == Fill(Blank(u.id, name), p);
      assert u.rows[..|rows|] == rows;
  }

  /**
   * Saving the same page again finds the row the first save wrote, provided
   * the payload wrote the key it is looked up by (its wikipage or its URL).
   */
  lemma UpsertEntityRerun(rows: seq<Entity>, nextId: nat, name: string, wikipageId: Option<nat>, url: Option<string>, p: Payload,
                          nextId': nat, p': Payload)
    requires (wikipageId.Some? && p.wikipageId == Put(wikipageId)) || (url.Some? && p.url == Put(url))
    ensures var u := UpsertEntity(rows, nextId, name, wikipageId, url, p);
      var u' := UpsertEntity(u.rows, nextId', name, wikipageId, url, p');
      u'.id == u.id && |u'.rows| == |u.rows| && u'.nextId == nextId'
  {
    var u := UpsertEntity(rows, nextId, name, wikipageId, url, p);
    var i := match First(rows, (e: Entity) => EntityMatches(e, name, wikipageId, url)) case Some(i) => i case None => |rows|;
    assert i < |u.rows| && EntityMatches(u.rows[i], name, wikipageId, url) && u.rows[i].id == u.id;
    assert forall j :: 0 <= j < i ==> u.rows[j] == rows[j];
    assert First(u.rows, (e: Entity) => EntityMatches(e, name, wikipageId, url)) == Some(i);
  }

  // ------------------------------------------------------------ relations

  /** The ids `table` rows linked to a game. */
  function Related(links: set<Link>, table: Table, gameId: nat): set<nat> {
    set l | l in links && l.table == table && l.gameId == gameId :: l.otherId
  }

  function Others(links: set<Link>, table: Table, gameId: nat): set<Link> {
    set l | l in links && !(l.table == table && l.gameId == gameId)
  }

  /** `$game-><relation>()->sync($ids)` for a relation without pivot data. */
  function Sync(links: set<Link>, table: Table, gameId: nat, ids: set<nat>): set<Link> {
    Others(links, table, gameId) + set id | id in ids :: Link(table, gameId, id, None)
  }

  /** `$game->companies()->sync($companySync)`: one pivot row per key, carrying its role. */
  function SyncRoles(links: set<Link>, gameId: nat, roles: map<nat, string>): set<Link> {
    Others(links, Companies, gameId) + set id | id in roles :: Link(Companies, gameId, id, Some(roles[id]))
  }

  /** Sync replaces the game's links in that relation by exactly the given ids and touches nothing else. */
  lemma SyncReplaces(links: set<Link>, table: Table, gameId: nat, ids: set<nat>)
    ensures Related(Sync(links, table, gameId, ids), table, gameId) == ids
    ensures forall l :: l in links && !(l.table == table && l.gameId == gameId) ==> l in Sync(links, table, gameId, ids)
    ensures forall l :: l in Sync(links, table, gameId, ids) && !(l.table == table && l.gameId == gameId) ==> l in links
  {
    var s := Sync(links, table, gameId, ids);
    forall id | id in ids ensures id in Related(s, table, gameId) {
      assert Link(table, gameId, id, None) in s;
    }
  }

  /** Company sync leaves one pivot row per company id, with the role the map gives it. */
  lemma SyncRolesReplaces(links: set<Link>, gameId: nat, roles: map<nat, string>)
    ensures Related(SyncRoles(links, gameId, roles), Companies, gameId) == roles.Keys
    ensures forall l :: l in SyncRoles(links, gameId, roles) && l.table == Companies && l.gameId == gameId ==>
      l.otherId in roles && l.role == Some(roles[l.otherId])
    ensures forall l :: l in links && !(l.table == Companies && l.gameId == gameId) ==> l in SyncRoles(links, gameId, roles)
  {
    var s := SyncRoles(links, gameId, roles);
    forall id | id in roles ensures id in Related(s, Companies, gameId) {
      assert Link(Companies, gameId, id, Some(roles[id])) in s;
    }
  }

  // -------------------------------------------------------- needs details

  /**
   * `needsDetails`: true when no row has the name, or its wikipage's URL is
   * null or blank.
   */
  predicate NeedsDetails(rows: seq<Entity>, pages: seq<Wikipage>, title: string) {
    match First(rows, (e: Entity) => Named(e, title))
    case None => true
    case Some(i) =>
      match WikipageOf(pages, rows[i].wikipageId)
      case None => true
      case Some(w) => w.url.None? || Trim(w.url.value) == ""
  }

  /** A title whose row links to a wikipage with a non-blank URL needs no details; an unknown title does. */
  lemma NeedsDetailsCases(rows: seq<Entity>, pages: seq<Wikipage>, title: string)
    ensures (forall j :: 0 <= j < |rows| ==> !Named(rows[j], title)) ==> NeedsDetails(rows, pages, title)
    ensures forall i, k ::
      (0 <= i < |rows| && 0 <= k < |pages| && NamesUnique(rows) && Named(rows[i], title) &&
       rows[i].wikipageId == Some(pages[k].id) && (forall m :: 0 <= m < k ==> pages[m].id != pages[k].id) &&
       pages[k].url.Some? && Trim(pages[k].url.value) != "") ==> !NeedsDetails(rows, pages, title)
  {
    forall i, k |
      0 <= i < |rows| && 0 <= k < |pages| && NamesUnique(rows) && Named(rows[i], title) &&
      rows[i].wikipageId == Some(pages[k].id) && (forall m :: 0 <= m < k ==> pages[m].id != pages[k].id) &&
      pages[k].url.Some? && Trim(pages[k].url.value) != ""
      ensures !NeedsDetails(rows, pages, title)
    {
      forall j | 0 <= j < i ensures !Named(rows[j], title) {
        assert rows[j].name.Some? ==> rows[j].name != rows[i].name;
      }
      FirstIs(rows, (e: Entity) => Named(e, title), i);
      FirstIs(pages, (w: Wikipage) => w.id == pages[k].id, k);
      assert WikipageOf(pages, rows[i].wikipageId) == Some(pages[k]);
    }
  }

  /** The first row that satisfies p is found. */
  lemma FirstIs<R>(rows: seq<R>, p: R -> bool, i: nat)
    requires i < |rows| && p(rows[i]) && forall j :: 0 <= j < i ==> !p(rows[j])
    ensures First(rows, p) == Some(i)
  {
  }

  // ------------------------------------------------------------ the store

  const AllTables: set<Table> := {Companies, Platforms, Engines, Genres, Modes, SeriesTable}

  lemma TableInAll(t: Table)
    ensures t in AllTables
  {
  }

  /** The content of the database: every table and the single id counter. */
  datatype Tables = Tables(wikipages: seq<Wikipage>, games: seq<Game>, entities: map<Table, seq<Entity>>, links: set<Link>, nextId: nat)

  /** Every company and taxonomy table exists. */
  predicate Complete(t: Tables) {
    t.entities.Keys == AllTables
  }

  function RowsIn(t: Tables, table: Table): seq<Entity>
    requires Complete(t)
  {
    TableInAll(table);
    t.entities[table]
  }

  /** The database after a write, and the id of the row written. */
  datatype Written = Written(tables: Tables, id: nat)

  datatype WrittenIds = WrittenIds(tables: Tables, ids: seq<nat>)

  function SaveWikipageIn(t: Tables, title: string, url: string, description: Option<string>, wikitext: Option<string>): (w: Written)
    ensures w.tables.games == t.games && w.tables.entities == t.entities && w.tables.links == t.links
  {
    var u := UpsertWikipage(t.wikipages, t.nextId, title, url, description, wikitext);
    Written(t.(wikipages := u.rows, nextId := u.nextId), u.id)
  }

  function SaveGameIn(t: Tables, wikipageId: nat, f: GameFields): (w: Written)
    ensures w.tables.wikipages == t.wikipages && w.tables.entities == t.entities && w.tables.links == t.links
  {
    var u := UpsertGame(t.games, t.nextId, wikipageId, f);
    Written(t.(games := u.rows, nextId := u.nextId), u.id)
  }

  function SaveEntityIn(t: Tables, table: Table, name: string, wikipageId: Option<nat>, url: Option<string>, p: Payload): (w: Written)
    requires Complete(t)
    ensures Complete(w.tables)
    ensures w.tables.wikipages == t.wikipages && w.tables.games == t.games && w.tables.links == t.links
    ensures forall other :: other != table && other in t.entities ==> RowsIn(w.tables, other) == RowsIn(t, other)
  {
    TableInAll(table);
    var u := UpsertEntity(RowsIn(t, table), t.nextId, name, wikipageId, url, p);
    Written(t.(entities := t.entities[table := u.rows], nextId := u.nextId), u.id)
  }

  /**
   * `SaveEntityIn` in terms of the table it writes: the row written carries
   * the payload, at most one row is appended and names stay unique.
   */
  lemma SaveEntityInEffect(t: Tables, table: Table, name: string, wikipageId: Option<nat>, url: Option<string>, p: Payload)
    requires Complete(t)
    ensures var w := SaveEntityIn(t, table, name, wikipageId, url, p); var rows := RowsIn(w.tables, table); var before := RowsIn(t, table);
      exists k :: 0 <= k < |rows| && rows[k].id == w.id && (rows[k] == Fill(Blank(w.id, name), p) || (k < |before| && rows[k] == Fill(before[k], p)))
    ensures var w := SaveEntityIn(t, table, name, wikipageId, url, p); var rows := RowsIn(w.tables, table); var before := RowsIn(t, table);
      |rows| == |before| || (|rows| == |before| + 1 && rows[..|before|] == before)
    ensures NamesUnique(RowsIn(t, table)) ==> NamesUnique(RowsIn(SaveEntityIn(t, table, name, wikipageId, url, p).tables, table))
  {
    TableInAll(table);
    UpsertEntityEffect(RowsIn(t, table), t.nextId, name, wikipageId, url, p);
  }

  /**
   * Saving the same row again, keyed by what the first save wrote, finds it;
   * `t'` is the database after the first save, give or take other tables.
   */
  lemma SaveEntityInRerun(t: Tables, table: Table, name: string, wikipageId: Option<nat>, url: Option<string>, p: Payload, t': Tables, p': Payload)
    requires Complete(t)
    requires (wikipageId.Some? && p.wikipageId == Put(wikipageId)) || (url.Some? && p.url == Put(url))
    requires var w := SaveEntityIn(t, table, name, wikipageId, url, p); t'.entities == w.tables.entities && t'.nextId == w.tables.nextId
    ensures var w := SaveEntityIn(t, table, name, wikipageId, url, p); var w' := SaveEntityIn(t', table, name, wikipageId, url, p');
      w'.id == w.id && |RowsIn(w'.tables, table)| == |RowsIn(w.tables, table)| && w'.tables.nextId == w.tables.nextId
  {
    TableInAll(table);
    var w := SaveEntityIn(t, table, name, wikipageId, url, p);
    UpsertEntityRerun(RowsIn(t, table), t.nextId, name, wikipageId, url, p, w.tables.nextId, p');
  }

  /** Saving the same wikipage again finds it and adds nothing. */
  lemma SaveWikipageInRerun(t: Tables, title: string, url: string, description: Option<string>, wikitext: Option<string>,
                            description': Option<string>, wikitext': Option<string>)
    ensures var w := SaveWikipageIn(t, title, url, description, wikitext); var w' := SaveWikipageIn(w.tables, title, url, description', wikitext');
      w'.id == w.id && |w'.tables.wikipages| == |w.tables.wikipages| && w'.tables.nextId == w.tables.nextId
  {
    var w := SaveWikipageIn(t, title, url, description, wikitext);
    UpsertWikipageRerun(t.wikipages, t.nextId, title, url, description, wikitext, w.tables.nextId, description', wikitext');
  }

  function IdsForIn(t: Tables, table: Table, names: seq<string>): (w: WrittenIds)
    requires Complete(t)
    ensures Complete(w.tables)
    ensures w.tables.wikipages == t.wikipages && w.tables.games == t.games && w.tables.links == t.links
    ensures forall other :: other != table && other in t.entities ==> RowsIn(w.tables, other) == RowsIn(t, other)
  {
    TableInAll(table);
    var r := IdsFor(RowsIn(t, table), t.nextId, names);
    WrittenIds(t.(entities := t.entities[table := r.rows], nextId := r.nextId), r.ids)
  }

  function SyncIn(t: Tables, table: Table, gameId: nat, ids: seq<nat>): (r: Tables)
    ensures r.wikipages == t.wikipages && r.games == t.games && r.entities == t.entities && r.nextId == t.nextId
  {
    t.(links := Sync(t.links, table, gameId, set id | id in ids))
  }

  function SyncRolesIn(t: Tables, gameId: nat, roles: map<nat, string>): (r: Tables)
    ensures r.wikipages == t.wikipages && r.games == t.games && r.entities == t.entities && r.nextId == t.nextId
  {
    t.(links := SyncRoles(t.links, gameId, roles))
  }

  class Db {
    var wikipages: seq<Wikipage>
    var games: seq<Game>
    var entities: map<Table, seq<Entity>>
    var links: set<Link>
    var nextId: nat

    function Snapshot(): Tables
      reads this
    {
      Tables(wikipages, games, entities, links, nextId)
    }

    ghost predicate Valid()
      reads this
    {
      Complete(Snapshot())
    }

    constructor ()
      ensures Valid() && wikipages == [] && games == [] && links == {} && nextId == 0
      ensures forall t :: t in entities ==> entities[t] == []
    {
      wikipages := [];
      games := [];
      entities := map[Companies := [], Platforms := [], Engines := [], Genres := [], Modes := [], SeriesTable := []];
      links := {};
      nextId := 0;
    }

    method Load(t: Tables)
      modifies this
      ensures Snapshot() == t
    {
      wikipages, games, entities, links, nextId := t.wikipages, t.games, t.entities, t.links, t.nextId;
    }

    method SaveWikipage(title: string, url: string, description: Option<string>, wikitext: Option<string>) returns (id: nat)
      modifies this
      ensures Written(Snapshot(), id) == SaveWikipageIn(old(Snapshot()), title, url, description, wikitext)
    {
      var w := SaveWikipageIn(Snapshot(), title, url, description, wikitext);
      Load(w.tables);
      id := w.id;
    }

    method SaveGame(wikipageId: nat, f: GameFields) returns (id: nat)
      modifies this
      ensures Written(Snapshot(), id) == SaveGameIn(old(Snapshot()), wikipageId, f)
    {
      var w := SaveGameIn(Snapshot(), wikipageId, f);
      Load(w.tables);
      id := w.id;
    }

    method SaveEntity(table: Table, name: string, wikipageId: Option<nat>, url: Option<string>, p: Payload) returns (id: nat)
      requires Valid()
      modifies this
      ensures Valid()
      ensures Written(Snapshot(), id) == SaveEntityIn(old(Snapshot()), table, name, wikipageId, url, p)
    {
      var w := SaveEntityIn(Snapshot(), table, name, wikipageId, url, p);
      Load(w.tables);
      id := w.id;
    }

    /** `getIdsFor`: the `foreach` calling firstOrCreate on each name. */
    method GetIdsFor(table: Table, names: seq<string>) returns (ids: seq<nat>)
      requires Valid()
      modifies this
      ensures Valid()
      ensures WrittenIds(Snapshot(), ids) == IdsForIn(old(Snapshot()), table, names)
    {
      ghost var rows0, next0 := RowsIn(Snapshot(), table), nextId;
      var rows := RowsIn(Snapshot(), table);
      ids := [];
      var i := 0;
      while i < |names|
        invariant 0 <= i <= |names|
        invariant Resolved(rows, ids, nextId) == IdsFor(rows0, next0, names[..i])
        invariant wikipages == old(wikipages) && games == old(games) && links == old(links) && entities == old(entities)
      {
        IdsForSnoc(rows0, next0, names, i);
        var u := FirstOrCreate(rows, nextId, names[i]);
        rows := u.rows;
        nextId := u.nextId;
        ids := ids + [u.id];
        i := i + 1;
      }
      assert names[..|names|] == names;
      TableInAll(table);
      entities := entities[table := rows];
    }

    method SyncRelation(table: Table, gameId: nat, ids: seq<nat>)
      modifies this
      ensures Snapshot() == SyncIn(old(Snapshot()), table, gameId, ids)
    {
      links := Sync(links, table, gameId, set id | id in ids);
    }

    method SyncCompanies(gameId: nat, roles: map<nat, string>)
      modifies this
      ensures Snapshot() == SyncRolesIn(old(Snapshot()), gameId, roles)
    {
      links := SyncRoles(links, gameId, roles);
    }
  }
}
