/**
 * The page processors: `ProcessGamePageJob` and the company, platform,
 * engine, genre, mode and series page jobs. Each fetches the page through
 * the client's parse bundle, parses its infoboxes and writes the page's
 * rows; the game job also dispatches page jobs for linked names that still
 * lack details and syncs the game's relations.
 *
 * Each job is specified by a function from the database content, the
 * client's memo and the page's environment to the outcome, the new content
 * and the new memo; the method performing the job is proved to compute it.
 */
module PageJobs {
  import opened Wrappers
  import opened PhpStrings
  import Jobs
  import opened MediaWikiClient
  import opened InfoboxCells
  import opened InfoboxParser
  import opened Store
  import InfoboxDates
  import CleansTitles

  // ------------------------------------------------------------------ urls

  const WikiPrefix: string := "https://en.wikipedia.org/wiki/"

  /** `str_replace(' ', '_', $title)`. */
  function SpacesToUnderscores(s: string): (r: string)
    ensures |r| == |s| && ' ' !in r
    ensures forall i :: 0 <= i < |s| ==> r[i] == (if s[i] == ' ' then '_' else s[i])
  {
    if s == [] then [] else [if s[0] == ' ' then '_' else s[0]] + SpacesToUnderscores(s[1..])
  }

  /** The page URL every page job builds from its title. */
  function WikiUrl(title: string): string {
    WikiPrefix + SpacesToUnderscores(title)
  }

  /**
   * The URL's page segment turned back into a title (underscores to spaces)
   * gives the title again when the title has no underscore; two such titles
   * with the same URL are equal.
   */
  lemma WikiUrlRecoversTitle(title: string, other: string)
    requires '_' !in title && '_' !in other
    ensures UnderscoresToSpaces(WikiUrl(title)[|WikiPrefix|..]) == title
    ensures WikiUrl(title) == WikiUrl(other) ==> title == other
  {
    var seg := WikiUrl(title)[|WikiPrefix|..];
    assert seg == SpacesToUnderscores(title);
    var back := UnderscoresToSpaces(seg);
    assert |back| == |title|;
    forall i | 0 <= i < |title| ensures back[i] == title[i] {
      assert title[i] != '_';
    }
    if WikiUrl(title) == WikiUrl(other) {
      var seg' := WikiUrl(other)[|WikiPrefix|..];
      assert seg' == SpacesToUnderscores(other);
      assert seg == seg';
      forall i | 0 <= i < |other| ensures UnderscoresToSpaces(seg')[i] == other[i] {
        assert other[i] != '_';
      }
      assert UnderscoresToSpaces(seg') == other;
    }
  }

  /** A space and an underscore give the same URL, so such titles share one wikipage. */
  lemma WikiUrlMergesSpaceAndUnderscore(a: string, b: string)
    ensures WikiUrl(a + " " + b) == WikiUrl(a + "_" + b)
  {
    var x := SpacesToUnderscores(a + " " + b);
    var y := SpacesToUnderscores(a + "_" + b);
    assert |x| == |y|;
    forall i | 0 <= i < |x| ensures x[i] == y[i] {
      if i < |a| {
        assert (a + " " + b)[i] == (a + "_" + b)[i];
      } else if i > |a| {
        assert (a + " " + b)[i] == (a + "_" + b)[i];
      }
    }
  }

  // ---------------------------------------------------------------- values

  /** `$data[$key] ?? null`. */
  function Lookup(data: Data, key: string): Value {
    if key in data then data[key] else Null
  }

  /**
   * A value written to a nullable string column. Only strings and nulls are
   * ever stored under the keys this is used for.
   */
  function StringOf(v: Value): (r: Option<string>)
    ensures r.Some? <==> v.Str?
  {
    if v.Str? then Some(v.s) else None
  }

  /** PHP `empty()` of a value. */
  predicate EmptyValue(v: Value) {
    match v
    case Null => true
    case Str(s) => Falsy(s)
    case Int(i) => i == 0
    case List(items) => items == []
  }

  /** `$data[$key] ?? []` where a list is expected. */
  function Items(v: Value): seq<string> {
    if v.List? then v.items else []
  }

  /** `! empty($v) && is_array($v)`. */
  predicate NonEmptyList(v: Value) {
    v.List? && v.items != []
  }

  /**
   * The cover fallback: when the parsed cover is empty and the main image
   * is a non-empty string, the main image becomes the cover.
   */
  function WithCoverFallback(data: Data, mainImage: Option<string>): (d: Data)
    ensures d.Keys == data.Keys + (if d == data then {} else {CoverKey})
  {
    if EmptyValue(Lookup(data, CoverKey)) && mainImage.Some? && mainImage.value != "" then data[CoverKey := Str(mainImage.value)] else data
  }

  /** The fallback touches only the cover, and only an empty one. */
  lemma CoverFallbackSpec(data: Data, mainImage: Option<string>)
    ensures var d := WithCoverFallback(data, mainImage);
      forall k :: k != CoverKey ==> Lookup(d, k) == Lookup(data, k)
    ensures !EmptyValue(Lookup(data, CoverKey)) ==> WithCoverFallback(data, mainImage) == data
    ensures EmptyValue(Lookup(data, CoverKey)) && mainImage.Some? && mainImage.value != "" ==>
      Lookup(WithCoverFallback(data, mainImage), CoverKey) == Str(mainImage.value)
    ensures (mainImage.None? || mainImage == Some("")) ==> WithCoverFallback(data, mainImage) == data
  {
  }

  /** `$data['release_date'] ?? null` passed as a nullable string. */
  function DateArg(v: Value): Option<string> {
    StringOf(v)
  }

  /**
   * `extractReleaseYear`: null for a falsy string, otherwise the first run
   * of four digits, whatever the current year.
   */
  function ReleaseYear(date: Option<string>): (y: Option<int>)
    ensures y.Some? ==> Truthy(date) && 0 <= y.value < 10000
    ensures Truthy(date) ==> y == InfoboxDates.ExtractYear(date.value)
  {
    if !Truthy(date) then None else InfoboxDates.ExtractYear(date.value)
  }

  /** `parseDate(...)?->toDateString()`: null for a falsy string or a date Carbon cannot read. */
  function ReleaseDate(date: Option<string>, parseDate: string -> Option<string>): (r: Option<string>)
    ensures !Truthy(date) ==> r.None?
  {
    if !Truthy(date) then None else parseDate(date.value)
  }

  /** `isset($v) && is_scalar($v) ? (int) $v : null`. */
  function FoundedOf(v: Value): (r: Option<int>)
    ensures r.Some? <==> v.Int? || v.Str?
    ensures v.Int? ==> r == Some(v.i)
  {
    match v
    case Int(i) => Some(i)
    case Str(s) => Some(StringToInt(s))
    case _ => None
  }

  // ------------------------------------------------------------ footnotes

  /** `isBracketFootnoteToken`: the trimmed value is "[", one ASCII letter or digit, "]". */
  predicate IsBracketFootnoteToken(value: string) {
    var v := Trim(value);
    |v| == 3 && v[0] == '[' && v[2] == ']' && (IsAsciiLetter(v[1]) || IsDigit(v[1]))
  }

  predicate IsFootnoteChar(c: char) { IsAsciiLetter(c) || IsDigit(c) }

  lemma FootnoteTokenShape(value: string)
    ensures IsBracketFootnoteToken(value) <==> exists c :: IsFootnoteChar(c) && Trim(value) == ['[', c, ']']
  {
    var v := Trim(value);
    if IsBracketFootnoteToken(value) {
      assert v == ['[', v[1], ']'];
    }
  }

  /** A name kept as a company: non-empty and not a footnote token. */
  predicate IsCompanyName(n: string) {
    n != "" && !IsBracketFootnoteToken(n)
  }

  function Identity(s: string): string { s }

  /** The `array_filter` over developers or publishers. */
  function CompanyNames(v: Value): (names: seq<string>)
    ensures forall n :: n in names <==> n in Items(v) && IsCompanyName(n)
  {
    CollectSpec(Items(v), IsCompanyName, Identity);
    Collect(Items(v), IsCompanyName, Identity)
  }

  // ------------------------------------------------------------- children

  function PageTask(table: Table, title: string): (t: Jobs.Task)
    ensures (t.ProcessCompanyPage? || t.ProcessPlatformPage? || t.ProcessEnginePage? || t.ProcessGenrePage? || t.ProcessModePage? || t.ProcessSeriesPage?) && t.pageTitle == title
  {
    match table
    case Companies => Jobs.ProcessCompanyPage(title)
    case Platforms => Jobs.ProcessPlatformPage(title)
    case Engines => Jobs.ProcessEnginePage(title)
    case Genres => Jobs.ProcessGenrePage(title)
    case Modes => Jobs.ProcessModePage(title)
    case SeriesTable => Jobs.ProcessSeriesPage(title)
  }

  /** The filter applied to a linked title before `needsDetails`. */
  predicate Candidate(table: Table, title: string) {
    title != "" && (table == Companies ==> !IsBracketFootnoteToken(title))
  }

  predicate Wanted(t: Tables, table: Table, title: string)
    requires Complete(t)
  {
    Candidate(table, title) && NeedsDetails(RowsIn(t, table), t.wikipages, title)
  }

  /** The dispatch loop over (deduplicated) linked titles. */
  function ChildTasks(t: Tables, table: Table, titles: seq<string>): (r: seq<Jobs.Task>)
    requires Complete(t)
    ensures |r| <= |titles|
  {
    if titles == [] then []
    else
      var last := titles[|titles| - 1];
      ChildTasks(t, table, titles[..|titles| - 1]) + (if Wanted(t, table, last) then [PageTask(table, last)] else [])
  }

  /** Every page job dispatched is for a wanted title. */
  lemma {:induction false} ChildTasksSound(t: Tables, table: Table, titles: seq<string>)
    requires Complete(t)
    ensures forall task :: task in ChildTasks(t, table, titles) ==>
      exists i :: 0 <= i < |titles| && Wanted(t, table, titles[i]) && task == PageTask(table, titles[i])
  {
    if titles != [] {
      var init := titles[..|titles| - 1];
      ChildTasksSound(t, table, init);
      var p := ChildTasks(t, table, init);
      forall task | task in p
        ensures exists i :: 0 <= i < |titles| && Wanted(t, table, titles[i]) && task == PageTask(table, titles[i])
      {
        var i :| 0 <= i < |init| && Wanted(t, table, init[i]) && task == PageTask(table, init[i]);
        assert titles[i] == init[i];
      }
    }
  }

  /** Every wanted title gets its page job. */
  lemma {:induction false} ChildTasksComplete(t: Tables, table: Table, titles: seq<string>)
    requires Complete(t)
    ensures forall i :: 0 <= i < |titles| && Wanted(t, table, titles[i]) ==> PageTask(table, titles[i]) in ChildTasks(t, table, titles)
  {
    if titles != [] {
      var init := titles[..|titles| - 1];
      ChildTasksComplete(t, table, init);
      forall i | 0 <= i < |init| ensures init[i] == titles[i] {
      }
    }
  }

  /** A page job is dispatched for exactly the wanted titles. */
  lemma ChildTasksMembers(t: Tables, table: Table, titles: seq<string>)
    requires Complete(t)
    ensures forall task :: task in ChildTasks(t, table, titles) <==>
      exists i :: 0 <= i < |titles| && Wanted(t, table, titles[i]) && task == PageTask(table, titles[i])
  {
    ChildTasksSound(t, table, titles);
    ChildTasksComplete(t, table, titles);
  }

  /** For distinct titles no page job is dispatched twice. */
  lemma {:induction false} ChildTasksDistinct(t: Tables, table: Table, titles: seq<string>)
    requires Complete(t)
    ensures NoDups(titles) ==> forall i, j :: 0 <= i < j < |ChildTasks(t, table, titles)| ==>
      ChildTasks(t, table, titles)[i] != ChildTasks(t, table, titles)[j]
  {
    if titles != [] && NoDups(titles) {
      var init := titles[..|titles| - 1];
      var last := titles[|titles| - 1];
      assert NoDups(init) by {
        forall i, j | 0 <= i < j < |init| ensures init[i] != init[j] {
          assert init[i] == titles[i] && init[j] == titles[j];
        }
      }
      ChildTasksDistinct(t, table, init);
      var p := ChildTasks(t, table, init);
      if Wanted(t, table, last) {
        ChildTasksMembers(t, table, init);
        forall k | 0 <= k < |p| ensures p[k] != PageTask(table, last) {
          assert p[k] in p;
          var i :| 0 <= i < |init| && Wanted(t, table, init[i]) && p[k] == PageTask(table, init[i]);
          assert init[i] == titles[i];
        }
      }
    }
  }

  /** One more turn of the dispatch loop. */
  lemma ChildTasksStep(t: Tables, table: Table, titles: seq<string>, i: nat)
    requires Complete(t) && i < |titles|
    ensures ChildTasks(t, table, titles[..i + 1]) ==
      ChildTasks(t, table, titles[..i]) + (if Wanted(t, table, titles[i]) then [PageTask(table, titles[i])] else [])
  {
    assert titles[..i + 1][..i] == titles[..i];
  }

  /** The dispatch loop: one page job per deduplicated title that is wanted. */
  method DispatchChildren(db: Db, table: Table, linked: seq<string>) returns (tasks: seq<Jobs.Task>)
    requires db.Valid()
    ensures tasks == ChildTasks(db.Snapshot(), table, Dedup(linked))
  {
    ghost var t := db.Snapshot();
    var titles := Dedup(linked);
    tasks := [];
    var i := 0;
    while i < |titles|
      invariant 0 <= i <= |titles|
      invariant tasks == ChildTasks(t, table, titles[..i])
    {
      var wanted := Candidate(table, titles[i]) && NeedsDetails(db.Snapshot().entities[table], db.wikipages, titles[i]);
      ChildTasksStep(t, table, titles, i);
      if wanted {
        tasks := tasks + [PageTask(table, titles[i])];
      }
      i := i + 1;
    }
    assert titles[..|titles|] == titles;
  }

  /** The linked titles of one list key (`$data['<key>_link_titles'] ?? []`). */
  function Linked(data: Data, key: string): seq<string> {
    Items(Lookup(data, LinkTitlesKey(key)))
  }

  /** Every page job the game job dispatches, in the order of its six loops. */
  function GameChildren(t: Tables, data: Data): seq<Jobs.Task>
    requires Complete(t)
  {
    ChildTasks(t, Companies, Dedup(Linked(data, "developers") + Linked(data, "publishers")))
    + ChildTasks(t, Platforms, Dedup(Linked(data, "platforms")))
    + ChildTasks(t, Engines, Dedup(Linked(data, "engines")))
    + ChildTasks(t, Genres, Dedup(Linked(data, "genres")))
    + ChildTasks(t, Modes, Dedup(Linked(data, "modes")))
    + ChildTasks(t, SeriesTable, Dedup(Linked(data, "series")))
  }

  // ------------------------------------------------------------- relations

  /** One relation block: resolve the names and sync, when the list is a non-empty array. */
  function SyncListIn(t: Tables, table: Table, gameId: nat, v: Value): (r: Tables)
    requires Complete(t)
    ensures Complete(r)
    ensures r.wikipages == t.wikipages && r.games == t.games
  {
    if NonEmptyList(v) then
      var w := IdsForIn(t, table, v.items);
      SyncIn(w.tables, table, gameId, w.ids)
    else t
  }

  /** Resolving names and syncing the ids: every linked row is named from the list, every name linked. */
  lemma {:induction false} ResolvedLinks(rows: seq<Entity>, nextId: nat, names: seq<string>, links: set<Link>, table: Table, gameId: nat, synced: set<Link>)
    requires synced == Sync(links, table, gameId, set x | x in IdsFor(rows, nextId, names).ids)
    ensures var r := IdsFor(rows, nextId, names); var related := Related(synced, table, gameId);
      (forall id :: id in related ==> exists k :: 0 <= k < |r.rows| && r.rows[k].id == id && r.rows[k].name.Some? && r.rows[k].name.value in names) &&
      (forall n :: n in names ==> exists k :: 0 <= k < |r.rows| && Named(r.rows[k], n) && r.rows[k].id in related)
  {
    var r := IdsFor(rows, nextId, names);
    IdsForEffect(rows, nextId, names);
    SyncReplaces(links, table, gameId, set x | x in r.ids);
    var related := Related(synced, table, gameId);
    forall id | id in related
      ensures exists k :: 0 <= k < |r.rows| && r.rows[k].id == id && r.rows[k].name.Some? && r.rows[k].name.value in names
    {
      var i :| 0 <= i < |r.ids| && r.ids[i] == id;
      var k :| 0 <= k < |r.rows| && r.rows[k].id == r.ids[i] && Named(r.rows[k], names[i]);
    }
    forall n | n in names
      ensures exists k :: 0 <= k < |r.rows| && Named(r.rows[k], n) && r.rows[k].id in related
    {
      var i :| 0 <= i < |names| && names[i] == n;
      var k :| 0 <= k < |r.rows| && r.rows[k].id == r.ids[i] && Named(r.rows[k], names[i]);
      assert r.ids[i] in set x | x in r.ids;
    }
  }

  /**
   * After a non-empty list is synced, every row linked to the game carries a
   * name from the list, and every name in the list has a row linked to it.
   */
  lemma SyncListLinks(t: Tables, table: Table, gameId: nat, v: Value)
    requires Complete(t) && NonEmptyList(v)
    ensures var r := SyncListIn(t, table, gameId, v); var rows := RowsIn(r, table); var related := Related(r.links, table, gameId);
      (forall id :: id in related ==> exists k :: 0 <= k < |rows| && rows[k].id == id && rows[k].name.Some? && rows[k].name.value in v.items) &&
      (forall n :: n in v.items ==> exists k :: 0 <= k < |rows| && Named(rows[k], n) && rows[k].id in related)
  {
    TableInAll(table);
    var res := IdsFor(RowsIn(t, table), t.nextId, v.items);
    var w := IdsForIn(t, table, v.items);
    assert w.ids == res.ids && RowsIn(w.tables, table) == res.rows;
    var r := SyncListIn(t, table, gameId, v);
    assert r == SyncIn(w.tables, table, gameId, w.ids);
    assert RowsIn(r, table) == res.rows;
    assert r.links == Sync(t.links, table, gameId, set x | x in res.ids);
    ResolvedLinks(RowsIn(t, table), t.nextId, v.items, t.links, table, gameId, r.links);
  }

  /**
   * An empty or missing list leaves the database alone; other relations are
   * untouched either way, and names stay unique.
   */
  lemma SyncListFrame(t: Tables, table: Table, gameId: nat, v: Value)
    requires Complete(t)
    ensures !NonEmptyList(v) ==> SyncListIn(t, table, gameId, v) == t
    ensures forall other :: other != table ==> Related(SyncListIn(t, table, gameId, v).links, other, gameId) == Related(t.links, other, gameId)
    ensures NamesUnique(RowsIn(t, table)) ==> NamesUnique(RowsIn(SyncListIn(t, table, gameId, v), table))
  {
    if NonEmptyList(v) {
      TableInAll(table);
      var w := IdsForIn(t, table, v.items);
      IdsForEffect(RowsIn(t, table), t.nextId, v.items);
      forall other | other != table ensures Related(SyncListIn(t, table, gameId, v).links, other, gameId) == Related(t.links, other, gameId) {
        SyncKeepsOthers(w.tables.links, table, other, gameId, set id | id in w.ids);
      }
    }
  }

  lemma SyncKeepsOthers(links: set<Link>, table: Table, other: Table, gameId: nat, ids: set<nat>)
    requires other != table
    ensures Related(Sync(links, table, gameId, ids), other, gameId) == Related(links, other, gameId)
  {
    var s := Sync(links, table, gameId, ids);
    forall id | id in Related(links, other, gameId) ensures id in Related(s, other, gameId) {
      var l :| l in links && l.table == other && l.gameId == gameId && l.otherId == id;
      assert l in s;
    }
  }

  /**
   * The role map: developers first, then publishers, keyed by id, so a
   * company in both lists ends as publisher.
   */
  function CompanyRoles(devIds: seq<nat>, pubIds: seq<nat>): (roles: map<nat, string>)
    ensures roles.Keys == (set id | id in devIds) + (set id | id in pubIds)
    ensures forall id :: id in pubIds ==> roles[id] == "publisher"
    ensures forall id :: id in devIds && id !in pubIds ==> roles[id] == "developer"
  {
    map id | id in (set x | x in devIds) + (set x | x in pubIds) :: if id in pubIds then "publisher" else "developer"
  }

  /** The two `foreach` loops filling `$companySync`. */
  method BuildCompanyRoles(devIds: seq<nat>, pubIds: seq<nat>) returns (roles: map<nat, string>)
    ensures roles == CompanyRoles(devIds, pubIds)
  {
    roles := map[];
    var i := 0;
    while i < |devIds|
      invariant 0 <= i <= |devIds|
      invariant roles.Keys == set x | x in devIds[..i]
      invariant forall id :: id in roles ==> roles[id] == "developer"
    {
      roles := roles[devIds[i] := "developer"];
      assert devIds[..i + 1] == devIds[..i] + [devIds[i]];
      i := i + 1;
    }
    assert devIds[..i] == devIds;
    var j := 0;
    while j < |pubIds|
      invariant 0 <= j <= |pubIds|
      invariant roles.Keys == (set x | x in devIds) + (set x | x in pubIds[..j])
      invariant forall id :: id in roles ==> roles[id] == (if id in pubIds[..j] then "publisher" else "developer")
    {
      assert pubIds[..j + 1] == pubIds[..j] + [pubIds[j]];
      roles := roles[pubIds[j] := "publisher"];
      j := j + 1;
    }
    assert pubIds[..j] == pubIds;
  }

  /** The company block: developers, then publishers, then one sync when any id was found. */
  function SyncCompaniesIn(t: Tables, gameId: nat, devs: Value, pubs: Value): (r: Tables)
    requires Complete(t)
    ensures Complete(r)
    ensures r.wikipages == t.wikipages && r.games == t.games
  {
    var d := if NonEmptyList(devs) then IdsForIn(t, Companies, CompanyNames(devs)) else WrittenIds(t, []);
    var p := if NonEmptyList(pubs) then IdsForIn(d.tables, Companies, CompanyNames(pubs)) else WrittenIds(d.tables, []);
    var roles := CompanyRoles(d.ids, p.ids);
    if roles == map[] then p.tables else SyncRolesIn(p.tables, gameId, roles)
  }

  // ----------------------------------------------------------- persistence

  /** The game row's columns as the job computes them. */
  function GameFieldsOf(title: string, data: Data, parseDate: string -> Option<string>): GameFields {
    var date := DateArg(Lookup(data, "release_date"));
    GameFields(Some(CleansTitles.CleanTitle(title)), StringOf(Lookup(data, CoverKey)), ReleaseDate(date, parseDate), ReleaseYear(date))
  }

  /** The transaction of the game job; the id is the game's. */
  function PersistGameIn(t: Tables, title: string, description: Option<string>, wikitext: Option<string>, f: GameFields, data: Data): (w: Written)
    requires Complete(t)
    ensures Complete(w.tables)
  {
    var page := SaveWikipageIn(t, title, WikiUrl(title), description, wikitext);
    var game := SaveGameIn(page.tables, page.id, f);
    var t1 := SyncListIn(game.tables, Genres, game.id, Lookup(data, "genres"));
    var t2 := SyncListIn(t1, Platforms, game.id, Lookup(data, "platforms"));
    var t3 := SyncListIn(t2, Modes, game.id, Lookup(data, "modes"));
    var t4 := SyncListIn(t3, SeriesTable, game.id, Lookup(data, "series"));
    var t5 := SyncListIn(t4, Engines, game.id, Lookup(data, "engines"));
    Written(SyncCompaniesIn(t5, game.id, Lookup(data, "developers"), Lookup(data, "publishers")), game.id)
  }

  /**
   * The transaction leaves a wikipage carrying the title, its URL and the
   * payload, and the game written points at it with the computed columns.
   */
  lemma PersistGameStores(t: Tables, title: string, description: Option<string>, wikitext: Option<string>, f: GameFields, data: Data)
    requires Complete(t)
    ensures var w := PersistGameIn(t, title, description, wikitext, f, data); var pages := w.tables.wikipages; var games := w.tables.games;
      exists k, g :: 0 <= k < |pages| && 0 <= g < |games| &&
        pages[k] == Wikipage(pages[k].id, Some(title), Some(WikiUrl(title)), description, wikitext) &&
        games[g] == Game(w.id, Some(pages[k].id), f.cleanTitle, f.cover, f.releaseDate, f.releaseYear)
  {
    var page := SaveWikipageIn(t, title, WikiUrl(title), description, wikitext);
    var game := SaveGameIn(page.tables, page.id, f);
    var w := PersistGameIn(t, title, description, wikitext, f, data);
    assert w.tables.wikipages == page.tables.wikipages && w.tables.games == game.tables.games;
    UpsertWikipageEffect(t.wikipages, t.nextId, title, WikiUrl(title), description, wikitext);
    var k :| 0 <= k < |page.tables.wikipages| && page.tables.wikipages[k] == Wikipage(page.id, Some(title), Some(WikiUrl(title)), description, wikitext);
    var rows := page.tables.games;
    var i := match First(rows, (r: Game) => GameOf(r, page.id)) case Some(i) => i case None => |rows|;
    assert w.tables.games[i] == Game(w.id, Some(page.id), f.cleanTitle, f.cover, f.releaseDate, f.releaseYear);
  }

  /** The transaction keeps every wikipage at one game at most. */
  lemma PersistGameOneGameEach(t: Tables, title: string, description: Option<string>, wikitext: Option<string>, f: GameFields, data: Data)
    requires Complete(t) && OneGameEach(t.games)
    ensures OneGameEach(PersistGameIn(t, title, description, wikitext, f, data).tables.games)
  {
    var page := SaveWikipageIn(t, title, WikiUrl(title), description, wikitext);
    var game := SaveGameIn(page.tables, page.id, f);
    assert PersistGameIn(t, title, description, wikitext, f, data).tables.games == game.tables.games;
    UpsertGameOneEach(page.tables.games, page.tables.nextId, page.id, f);
  }

  /**
   * Storing the same title again, whatever the payload, writes the same
   * wikipage and game rows: the game id is the first run's and neither
   * table grows.
   */
  lemma PersistGameRerun(t: Tables, title: string, description: Option<string>, wikitext: Option<string>, f: GameFields, data: Data,
                         description': Option<string>, wikitext': Option<string>, f': GameFields, data': Data)
    requires Complete(t)
    ensures var w := PersistGameIn(t, title, description, wikitext, f, data);
      var w' := PersistGameIn(w.tables, title, description', wikitext', f', data');
      w'.id == w.id && |w'.tables.wikipages| == |w.tables.wikipages| && |w'.tables.games| == |w.tables.games|
  {
    var w := PersistGameIn(t, title, description, wikitext, f, data);
    var page := SaveWikipageIn(t, title, WikiUrl(title), description, wikitext);
    var game := SaveGameIn(page.tables, page.id, f);
    assert w.tables.wikipages == page.tables.wikipages && w.tables.games == game.tables.games;
    var page' := SaveWikipageIn(w.tables, title, WikiUrl(title), description', wikitext');
    UpsertWikipageRerun(t.wikipages, t.nextId, title, WikiUrl(title), description, wikitext, w.tables.nextId, description', wikitext');
    assert page'.id == page.id && |page'.tables.wikipages| == |page.tables.wikipages|;
    UpsertGameRerun(page.tables.games, page.tables.nextId, page.id, f, page'.tables.nextId, f');
  }

  method SyncList(db: Db, table: Table, gameId: nat, v: Value)
    requires db.Valid()
    modifies db
    ensures db.Valid()
    ensures db.Snapshot() == SyncListIn(old(db.Snapshot()), table, gameId, v)
  {
    if NonEmptyList(v) {
      var ids := db.GetIdsFor(table, v.items);
      db.SyncRelation(table, gameId, ids);
    }
  }

  method SyncGameCompanies(db: Db, gameId: nat, devs: Value, pubs: Value)
    requires db.Valid()
    modifies db
    ensures db.Valid()
    ensures db.Snapshot() == SyncCompaniesIn(old(db.Snapshot()), gameId, devs, pubs)
  {
    var devIds: seq<nat> := [];
    if NonEmptyList(devs) {
      devIds := db.GetIdsFor(Companies, CompanyNames(devs));
    }
    var pubIds: seq<nat> := [];
    if NonEmptyList(pubs) {
      pubIds := db.GetIdsFor(Companies, CompanyNames(pubs));
    }
    var roles := BuildCompanyRoles(devIds, pubIds);
    if roles != map[] {
      db.SyncCompanies(gameId, roles);
    }
  }

  method PersistGame(db: Db, title: string, description: Option<string>, wikitext: Option<string>, f: GameFields, data: Data) returns (gameId: nat)
    requires db.Valid()
    modifies db
    ensures db.Valid()
    ensures Written(db.Snapshot(), gameId) == PersistGameIn(old(db.Snapshot()), title, description, wikitext, f, data)
  {
    var wikipageId := db.SaveWikipage(title, WikiUrl(title), description, wikitext);
    gameId := db.SaveGame(wikipageId, f);
    SyncList(db, Genres, gameId, Lookup(data, "genres"));
    SyncList(db, Platforms, gameId, Lookup(data, "platforms"));
    SyncList(db, Modes, gameId, Lookup(data, "modes"));
    SyncList(db, SeriesTable, gameId, Lookup(data, "series"));
    SyncList(db, Engines, gameId, Lookup(data, "engines"));
    SyncGameCompanies(db, gameId, Lookup(data, "developers"), Lookup(data, "publishers"));
  }

  // -------------------------------------------------------------- game job

  /**
   * What the outside world answers during one job: the page-properties
   * response of the disambiguation check, the response a parse request for
   * the title would get, the infobox tables of an HTML document, the main
   * image and lead description the summary endpoints give (or a throw), and
   * Carbon's reading of a date string.
   */
  datatype PageEnv = PageEnv(
    probe: Response, parse: Response, infoboxes: string -> seq<seq<Row>>,
    mainImage: Answer<Option<string>>, lead: Answer<Option<string>>,
    parseDate: string -> Option<string>)

  /**
   * How a page job ends: skipped as a disambiguation page, an exception
   * propagated to the queue, `fail()` called because the HTML is missing, no
   * infobox data, or the page stored (with the jobs dispatched on the way).
   */
  datatype PageOutcome = Skipped | Raised | MarkedFailed | NoInfobox | Stored(dispatched: seq<Jobs.Task>)

  datatype JobResult = JobResult(outcome: PageOutcome, tables: Tables, memo: Memo)

  /** The main image, asked for only when the parsed cover is empty. */
  function MainImageFor(data: Data, env: PageEnv): Answer<Option<string>> {
    if EmptyValue(Lookup(data, CoverKey)) then env.mainImage else Returned(None)
  }

  /** `$leadDescription ?? ($data['description'] ?? null)`. */
  function DescriptionOf(lead: Option<string>, data: Data): Option<string> {
    if lead.Some? then lead else StringOf(Lookup(data, "description"))
  }

  /**
   * `ProcessGamePageJob::doJob`: the outcome, the database afterwards and the
   * client's memo afterwards. The wikitext is read from the bundle the HTML
   * came from (the client has it cached by then).
   */
  function GameJob(t: Tables, m: Memo, title: string, env: PageEnv): (r: JobResult)
    requires Complete(t)
  {
    if IsDisambiguation(env.probe) == Returned(true) then JobResult(Skipped, t, m) else FetchedGame(t, m, title, env)
  }

  /**
   * The job after the disambiguation check: it never skips, its memo is the
   * one the parse-bundle fetch leaves, and only storing changes the database.
   */
  function FetchedGame(t: Tables, m: Memo, title: string, env: PageEnv): (r: JobResult)
    requires Complete(t)
    ensures !r.outcome.Skipped? && r.memo == FetchStep(m, title, env.parse).1
    ensures !r.outcome.Stored? ==> r.tables == t
  {
    var (b, m1) := FetchStep(m, title, env.parse);
    if b.Threw? then JobResult(Raised, t, m1)
    else
      var html := NonEmptyString(b.value.html);
      if !Truthy(html) then JobResult(MarkedFailed, t, m1)
      else
        var parsed := ParseSpec(env.infoboxes(html.value));
        if parsed == map[] then JobResult(NoInfobox, t, m1)
        else
          var image := MainImageFor(parsed, env);
          if image.Threw? || env.lead.Threw? then JobResult(Raised, t, m1)
          else
            StoreGame(t, m1, title, env.lead.value, b.value, WithCoverFallback(parsed, image.value), env.parseDate)
  }

  /** The end of a job that found infobox data: the dispatch loops, then the transaction. */
  function StoreGame(t: Tables, m: Memo, title: string, lead: Option<string>, bundle: Bundle, data: Data, parseDate: string -> Option<string>): (r: JobResult)
    requires Complete(t)
    ensures r.outcome.Stored? && r.memo == m && Complete(r.tables)
  {
    var w := PersistGameIn(t, title, DescriptionOf(lead, data), NonEmptyString(bundle.wikitext), GameFieldsOf(title, data, parseDate), data);
    JobResult(Stored(GameChildren(t, data)), w.tables, m)
  }

  /** The six dispatch loops, in order. */
  method DispatchGameChildren(db: Db, data: Data) returns (tasks: seq<Jobs.Task>)
    requires db.Valid()
    ensures tasks == GameChildren(db.Snapshot(), data)
  {
    var companies := DispatchChildren(db, Companies, Linked(data, "developers") + Linked(data, "publishers"));
    var platforms := DispatchChildren(db, Platforms, Linked(data, "platforms"));
    var engines := DispatchChildren(db, Engines, Linked(data, "engines"));
    var genres := DispatchChildren(db, Genres, Linked(data, "genres"));
    var modes := DispatchChildren(db, Modes, Linked(data, "modes"));
    var series := DispatchChildren(db, SeriesTable, Linked(data, "series"));
    tasks := companies + platforms + engines + genres + modes + series;
  }

  /** `ProcessGamePageJob::doJob`, against the database and the client. */
  method ProcessGamePage(db: Db, client: Client, title: string, env: PageEnv) returns (outcome: PageOutcome)
    requires db.Valid()
    modifies db, client
    ensures db.Valid()
    ensures JobResult(outcome, db.Snapshot(), client.State()) == GameJob(old(db.Snapshot()), old(client.State()), title, env)
  {
    if IsDisambiguation(env.probe) == Returned(true) {
      return Skipped;
    }
    var html := client.GetPageHtml(title, env.parse);
    if html.Threw? {
      return Raised;
    }
    if !Truthy(html.value) {
      return MarkedFailed;
    }
    var parsed := Parse(env.infoboxes(html.value.value));
    if parsed == map[] {
      return NoInfobox;
    }
    var image := MainImageFor(parsed, env);
    if image.Threw? || env.lead.Threw? {
      return Raised;
    }
    var data := WithCoverFallback(parsed, image.value);
    ghost var m1 := client.State();
    RepeatFetchIsCached(old(client.State()), title, env.parse, env.parse);
    var wikitext := client.GetPageWikitext(title, env.parse);
    assert client.State() == m1;
    var children := DispatchGameChildren(db, data);
    var gameId := PersistGame(db, title, DescriptionOf(env.lead.value, data), wikitext.value, GameFieldsOf(title, data, env.parseDate), data);
    return Stored(children);
  }

  /** A disambiguation page is skipped before any request of the client's. */
  lemma GameJobSkipsDisambiguation(t: Tables, m: Memo, title: string, env: PageEnv)
    requires Complete(t)
    ensures var r := GameJob(t, m, title, env);
      (r.outcome.Skipped? <==> IsDisambiguation(env.probe) == Returned(true)) && (r.outcome.Skipped? ==> r.memo == m && r.tables == t)
  {
  }

  /** Only a stored page changes the database. */
  lemma GameJobWritesOnlyWhenStored(t: Tables, m: Memo, title: string, env: PageEnv)
    requires Complete(t)
    ensures var r := GameJob(t, m, title, env); !r.outcome.Stored? ==> r.tables == t
  {
  }

  /**
   * One job sends at most one parse request, none for a title already
   * cached; once the HTML was read, the bundle stays cached, so a retry in
   * the same process sends nothing either.
   */
  lemma GameJobParseRequests(t: Tables, m: Memo, title: string, env: PageEnv)
    requires Complete(t)
    ensures var r := GameJob(t, m, title, env);
      (r.memo.sent == m.sent || r.memo.sent == m.sent + [title]) &&
      (title in m.cache ==> r.memo == m) &&
      (r.outcome.MarkedFailed? || r.outcome.NoInfobox? || r.outcome.Stored? ==> title in r.memo.cache)
  {
    FetchSendsOnMiss(m, title, env.parse);
  }

  /**
   * A stored page leaves a wikipage with the title and its URL, and a game
   * pointing at it; no wikipage ends with two games.
   */
  lemma GameJobStoresPage(t: Tables, m: Memo, title: string, env: PageEnv)
    requires Complete(t)
    ensures var r := GameJob(t, m, title, env);
      r.outcome.Stored? ==>
        exists k, g :: 0 <= k < |r.tables.wikipages| && 0 <= g < |r.tables.games| &&
          r.tables.wikipages[k].title == Some(title) && r.tables.wikipages[k].url == Some(WikiUrl(title)) &&
          GameOf(r.tables.games[g], r.tables.wikipages[k].id)
  {
    var r := GameJob(t, m, title, env);
    if r.outcome.Stored? {
      var (b, m1) := FetchStep(m, title, env.parse);
      var html := NonEmptyString(b.value.html);
      var parsed := ParseSpec(env.infoboxes(html.value));
      var image := MainImageFor(parsed, env);
      var data := WithCoverFallback(parsed, image.value);
      PersistGameStores(t, title, DescriptionOf(env.lead.value, data), NonEmptyString(b.value.wikitext), GameFieldsOf(title, data, env.parseDate), data);
    }
  }

  /** No wikipage ends with two games after a job. */
  lemma GameJobOneGameEach(t: Tables, m: Memo, title: string, env: PageEnv)
    requires Complete(t) && OneGameEach(t.games)
    ensures OneGameEach(GameJob(t, m, title, env).tables.games)
  {
    var r := GameJob(t, m, title, env);
    if r.outcome.Stored? {
      var (b, m1) := FetchStep(m, title, env.parse);
      var html := NonEmptyString(b.value.html);
      var parsed := ParseSpec(env.infoboxes(html.value));
      var image := MainImageFor(parsed, env);
      var data := WithCoverFallback(parsed, image.value);
      PersistGameOneGameEach(t, title, DescriptionOf(env.lead.value, data), NonEmptyString(b.value.wikitext), GameFieldsOf(title, data, env.parseDate), data);
    }
  }

  /**
   * Re-running a stored page's job with the memo it left reads the cached
   * bundle, stores again, sends no request, and adds no wikipage and no game.
   */
  lemma GameJobRerun(t: Tables, m: Memo, title: string, env: PageEnv)
    requires Complete(t)
    requires GameJob(t, m, title, env).outcome.Stored?
    ensures var r := GameJob(t, m, title, env); var r' := GameJob(r.tables, r.memo, title, env);
      r'.outcome.Stored? && r'.memo == r.memo &&
      |r'.tables.wikipages| == |r.tables.wikipages| && |r'.tables.games| == |r.tables.games|
  {
    var (b, m1) := FetchStep(m, title, env.parse);
    RepeatFetchIsCached(m, title, env.parse, env.parse);
    var html := NonEmptyString(b.value.html);
    var parsed := ParseSpec(env.infoboxes(html.value));
    var image := MainImageFor(parsed, env);
    var data := WithCoverFallback(parsed, image.value);
    var description := DescriptionOf(env.lead.value, data);
    var wikitext := NonEmptyString(b.value.wikitext);
    var f := GameFieldsOf(title, data, env.parseDate);
    PersistGameRerun(t, title, description, wikitext, f, data, description, wikitext, f, data);
  }

  // ---------------------------------------------------------- taxonomy jobs

  /**
   * The company, platform and engine jobs read infobox columns: they stop on
   * an empty parse and ask for the main image when the cover is empty. The
   * genre, mode and series jobs store the page whatever the parse gave.
   */
  predicate ReadsInfobox(table: Table) {
    table == Companies || table == Platforms || table == Engines
  }

  /** The `$payload` array of each page job; `wikipageId` is the upserted wikipage's id. */
  function EntityPayload(table: Table, wikipageId: Option<nat>, title: string, lead: Option<string>, wikitext: Option<string>,
                         data: Data, parseDate: string -> Option<string>): Payload
  {
    var cover := StringOf(Lookup(data, CoverKey));
    var website := StringOf(Lookup(data, "website_url"));
    var released := ReleaseDate(DateArg(Lookup(data, "release_date")), parseDate);
    match table
    case Companies =>
      Payload(Put(wikipageId), Put(Some(CleansTitles.CleanTitle(title))), Put(cover), Put(FoundedOf(Lookup(data, "founded"))), Keep, Put(website),
              Keep, Keep, Keep, Keep)
    case Platforms => Payload(Put(wikipageId), Keep, Put(cover), Keep, Put(released), Put(website), Keep, Keep, Keep, Keep)
    case Engines => Payload(Keep, Keep, Put(cover), Keep, Put(released), Put(website), Put(Some(title)), Put(Some(WikiUrl(title))), Put(lead), Put(wikitext))
    case _ => Payload(Put(wikipageId), Keep, Keep, Keep, Keep, Keep, Keep, Keep, Keep, Keep)
  }

  /**
   * The transaction of a taxonomy page job: the engine row is matched by name
   * or its own URL column; every other row by name or the wikipage upserted
   * first. The id is the row's.
   */
  function StoreEntityPage(table: Table, t: Tables, title: string, lead: Option<string>, wikitext: Option<string>,
                           data: Data, parseDate: string -> Option<string>): (w: Written)
    requires Complete(t)
    ensures Complete(w.tables)
    ensures w.tables.games == t.games && w.tables.links == t.links
    ensures forall other :: other != table ==> RowsIn(w.tables, other) == RowsIn(t, other)
  {
    if table == Engines then
      SaveEntityIn(t, Engines, title, None, Some(WikiUrl(title)), EntityPayload(Engines, None, title, lead, wikitext, data, parseDate))
    else
      var page := SaveWikipageIn(t, title, WikiUrl(title), lead, wikitext);
      SaveEntityIn(page.tables, table, title, Some(page.id), None, EntityPayload(table, Some(page.id), title, lead, wikitext, data, parseDate))
  }

  /**
   * `doJob` of the company, platform, engine, genre, mode and series page
   * jobs: it never skips, its memo is the one the parse-bundle fetch leaves,
   * only storing changes the database, and only a job that reads infobox
   * columns ends on an empty parse.
   */
  function TaxonomyJob(table: Table, t: Tables, m: Memo, title: string, env: PageEnv): (r: JobResult)
    requires Complete(t)
    ensures Complete(r.tables)
    ensures !r.outcome.Skipped? && r.memo == FetchStep(m, title, env.parse).1
    ensures !r.outcome.Stored? ==> r.tables == t
    ensures r.outcome.NoInfobox? ==> ReadsInfobox(table)
  {
    var (b, m1) := FetchStep(m, title, env.parse);
    if b.Threw? then JobResult(Raised, t, m1)
    else
      var html := NonEmptyString(b.value.html);
      if !Truthy(html) then JobResult(MarkedFailed, t, m1)
      else TaxonomyParsed(table, t, m1, title, env, b.value, ParseSpec(env.infoboxes(html.value)))
  }

  /** The job once the page is parsed: the stop on empty data, the cover fallback, the lead, the transaction. */
  function TaxonomyParsed(table: Table, t: Tables, m: Memo, title: string, env: PageEnv, bundle: Bundle, parsed: Data): (r: JobResult)
    requires Complete(t)
    ensures Complete(r.tables)
    ensures r.memo == m && (r.outcome.Stored? || r.outcome.NoInfobox? || r.outcome.Raised?)
    ensures !r.outcome.Stored? ==> r.tables == t
    ensures r.outcome.NoInfobox? <==> parsed == map[] && ReadsInfobox(table)
  {
    if parsed == map[] && ReadsInfobox(table) then JobResult(NoInfobox, t, m)
    else
      var image := if ReadsInfobox(table) then MainImageFor(parsed, env) else Returned(None);
      if image.Threw? || env.lead.Threw? then JobResult(Raised, t, m)
      else
        var w := StoreEntityPage(table, t, title, env.lead.value, NonEmptyString(bundle.wikitext), WithCoverFallback(parsed, image.value), env.parseDate);
        JobResult(Stored([]), w.tables, m)
  }

  /** The page job of `table`, against the database and the client. */
  method ProcessTaxonomyPage(db: Db, client: Client, table: Table, title: string, env: PageEnv) returns (outcome: PageOutcome)
    requires db.Valid()
    modifies db, client
    ensures db.Valid()
    ensures JobResult(outcome, db.Snapshot(), client.State()) == TaxonomyJob(table, old(db.Snapshot()), old(client.State()), title, env)
  {
    ghost var b := FetchStep(client.State(), title, env.parse).0;
    var html := client.GetPageHtml(title, env.parse);
    if html.Threw? {
      return Raised;
    }
    if !Truthy(html.value) {
      return MarkedFailed;
    }
    var parsed := Parse(env.infoboxes(html.value.value));
    outcome := FinishTaxonomyPage(db, client, table, title, env, b.value, parsed);
  }

  /** The rest of the job once the page is parsed; the bundle is cached by then. */
  method FinishTaxonomyPage(db: Db, client: Client, table: Table, title: string, env: PageEnv, ghost bundle: Bundle, parsed: Data)
    returns (outcome: PageOutcome)
    requires db.Valid()
    requires title in client.parseBundleCache && client.parseBundleCache[title] == bundle
    modifies db, client
    ensures db.Valid()
    ensures JobResult(outcome, db.Snapshot(), client.State()) == TaxonomyParsed(table, old(db.Snapshot()), old(client.State()), title, env, bundle, parsed)
  {
    if parsed == map[] && ReadsInfobox(table) {
      return NoInfobox;
    }
    var image := if ReadsInfobox(table) then MainImageFor(parsed, env) else Returned(None);
    if image.Threw? || env.lead.Threw? {
      return Raised;
    }
    var data := WithCoverFallback(parsed, image.value);
    ghost var m := client.State();
    assert FetchStep(m, title, env.parse) == (Returned(bundle), m);
    var wikitext := client.GetPageWikitext(title, env.parse);
    assert wikitext == Returned(NonEmptyString(bundle.wikitext)) && client.State() == m;
    ghost var t := db.Snapshot();
    var id := StoreEntity(db, table, title, env.lead.value, wikitext.value, data, env.parseDate);
    TaxonomyParsedWrites(table, t, m, title, env, bundle, parsed);
    return Stored([]);
  }

  /** When the page gets stored, the tables are those the transaction leaves. */
  lemma TaxonomyParsedWrites(table: Table, t: Tables, m: Memo, title: string, env: PageEnv, bundle: Bundle, parsed: Data)
    requires Complete(t) && !(parsed == map[] && ReadsInfobox(table)) && env.lead.Returned?
    requires ReadsInfobox(table) ==> MainImageFor(parsed, env).Returned?
    ensures var image := if ReadsInfobox(table) then MainImageFor(parsed, env) else Returned(None);
      TaxonomyParsed(table, t, m, title, env, bundle, parsed) ==
      JobResult(Stored([]), StoreEntityPage(table, t, title, env.lead.value, NonEmptyString(bundle.wikitext), WithCoverFallback(parsed, image.value), env.parseDate).tables, m)
  {
  }

  /** The transaction of a taxonomy page job, against the database. */
  method StoreEntity(db: Db, table: Table, title: string, lead: Option<string>, wikitext: Option<string>,
                     data: Data, parseDate: string -> Option<string>) returns (id: nat)
    requires db.Valid()
    modifies db
    ensures db.Valid()
    ensures Written(db.Snapshot(), id) == StoreEntityPage(table, old(db.Snapshot()), title, lead, wikitext, data, parseDate)
  {
    if table == Engines {
      id := db.SaveEntity(Engines, title, None, Some(WikiUrl(title)), EntityPayload(Engines, None, title, lead, wikitext, data, parseDate));
    } else {
      var wikipageId := db.SaveWikipage(title, WikiUrl(title), lead, wikitext);
      id := db.SaveEntity(table, title, Some(wikipageId), None, EntityPayload(table, Some(wikipageId), title, lead, wikitext, data, parseDate));
    }
  }

  /** The key columns of each job's payload: an engine writes its own title, URL and description, any other row its wikipage. */
  lemma PayloadKeys(table: Table, wikipageId: Option<nat>, title: string, lead: Option<string>, wikitext: Option<string>,
                    data: Data, parseDate: string -> Option<string>)
    ensures var p := EntityPayload(table, wikipageId, title, lead, wikitext, data, parseDate);
      (table == Engines ==> p.title == Put(Some(title)) && p.url == Put(Some(WikiUrl(title))) && p.description == Put(lead)) &&
      (table != Engines ==> p.wikipageId == Put(wikipageId))
  {
  }

  /**
   * The row `id` a taxonomy job wrote into `rows`: it keeps its name or is
   * named after the page; an engine carries the page's title, URL and lead
   * itself, any other row points at a wikipage with the title and URL.
   */
  predicate RowWritten(table: Table, before: seq<Entity>, rows: seq<Entity>, pages: seq<Wikipage>, id: nat,
                       title: string, lead: Option<string>, wikitext: Option<string>) {
    exists k :: 0 <= k < |rows| && rows[k].id == id &&
      (rows[k].name == Some(title) || (k < |before| && rows[k].name == before[k].name)) &&
      (table == Engines ==> rows[k].title == Some(title) && rows[k].url == Some(WikiUrl(title)) && rows[k].description == lead) &&
      (table != Engines ==>
        exists p :: 0 <= p < |pages| && rows[k].wikipageId == Some(pages[p].id) &&
          pages[p] == Wikipage(pages[p].id, Some(title), Some(WikiUrl(title)), lead, wikitext))
  }

  lemma EngineRowWritten(t: Tables, title: string, lead: Option<string>, wikitext: Option<string>, p: Payload)
    requires Complete(t)
    requires p.title == Put(Some(title)) && p.url == Put(Some(WikiUrl(title))) && p.description == Put(lead)
    ensures var w := SaveEntityIn(t, Engines, title, None, Some(WikiUrl(title)), p);
      RowWritten(Engines, RowsIn(t, Engines), RowsIn(w.tables, Engines), w.tables.wikipages, w.id, title, lead, wikitext)
  {
    SaveEntityInEffect(t, Engines, title, None, Some(WikiUrl(title)), p);
  }

  lemma LinkedRowWritten(t: Tables, table: Table, title: string, lead: Option<string>, wikitext: Option<string>, page: Written, p: Payload)
    requires Complete(t) && table != Engines
    requires page == SaveWikipageIn(t, title, WikiUrl(title), lead, wikitext)
    requires p.wikipageId == Put(Some(page.id))
    ensures var w := SaveEntityIn(page.tables, table, title, Some(page.id), None, p);
      RowWritten(table, RowsIn(t, table), RowsIn(w.tables, table), w.tables.wikipages, w.id, title, lead, wikitext)
  {
    var w := SaveEntityIn(page.tables, table, title, Some(page.id), None, p);
    var rows := RowsIn(w.tables, table);
    UpsertWikipageEffect(t.wikipages, t.nextId, title, WikiUrl(title), lead, wikitext);
    SaveEntityInEffect(page.tables, table, title, Some(page.id), None, p);
    var q :| 0 <= q < |page.tables.wikipages| && page.tables.wikipages[q] == Wikipage(page.id, Some(title), Some(WikiUrl(title)), lead, wikitext);
    var before := RowsIn(page.tables, table);
    assert before == RowsIn(t, table);
    var k :| 0 <= k < |rows| && rows[k].id == w.id && (rows[k] == Fill(Blank(w.id, title), p) || (k < |before| && rows[k] == Fill(before[k], p)));
    LinkedRowFrom(table, before, rows, w.tables.wikipages, w.id, title, lead, wikitext, p, page.id, k, q);
  }

  /** The filled row at `k` carries the name and the link to the stored wikipage at `q`. */
  lemma LinkedRowFrom(table: Table, before: seq<Entity>, rows: seq<Entity>, pages: seq<Wikipage>, id: nat,
                      title: string, lead: Option<string>, wikitext: Option<string>, p: Payload, pid: nat, k: nat, q: nat)
    requires table != Engines && p.wikipageId == Put(Some(pid))
    requires 0 <= k < |rows| && rows[k].id == id
    requires rows[k] == Fill(Blank(id, title), p) || (k < |before| && rows[k] == Fill(before[k], p))
    requires 0 <= q < |pages| && pages[q] == Wikipage(pid, Some(title), Some(WikiUrl(title)), lead, wikitext)
    ensures RowWritten(table, before, rows, pages, id, title, lead, wikitext)
  {
    FillLinks(Blank(id, title), p, pid);
    if k < |before| {
      FillLinks(before[k], p, pid);
    }
  }

  /** A payload that names the wikipage links the filled row to it. */
  lemma FillLinks(e: Entity, p: Payload, id: nat)
    requires p.wikipageId == Put(Some(id))
    ensures Fill(e, p).wikipageId == Some(id)
  {
  }

  /** The row every taxonomy job's transaction writes. */
  lemma StoreEntityPageRow(table: Table, t: Tables, title: string, lead: Option<string>, wikitext: Option<string>,
                           data: Data, parseDate: string -> Option<string>)
    requires Complete(t)
    ensures var w := StoreEntityPage(table, t, title, lead, wikitext, data, parseDate);
      RowWritten(table, RowsIn(t, table), RowsIn(w.tables, table), w.tables.wikipages, w.id, title, lead, wikitext)
  {
    if table == Engines {
      PayloadKeys(Engines, None, title, lead, wikitext, data, parseDate);
      EngineRowWritten(t, title, lead, wikitext, EntityPayload(Engines, None, title, lead, wikitext, data, parseDate));
    } else {
      var page := SaveWikipageIn(t, title, WikiUrl(title), lead, wikitext);
      PayloadKeys(table, Some(page.id), title, lead, wikitext, data, parseDate);
      LinkedRowWritten(t, table, title, lead, wikitext, page, EntityPayload(table, Some(page.id), title, lead, wikitext, data, parseDate));
    }
  }

  /**
   * A taxonomy job adds at most one row to its table, appended, keeps names
   * unique, and an engine job leaves the wikipages alone.
   */
  lemma StoreEntityPageShape(table: Table, t: Tables, title: string, lead: Option<string>, wikitext: Option<string>,
                             data: Data, parseDate: string -> Option<string>)
    requires Complete(t)
    ensures var w := StoreEntityPage(table, t, title, lead, wikitext, data, parseDate);
      var rows := RowsIn(w.tables, table); var before := RowsIn(t, table);
      (|rows| == |before| || (|rows| == |before| + 1 && rows[..|before|] == before)) &&
      (NamesUnique(before) ==> NamesUnique(rows)) &&
      (table == Engines ==> w.tables.wikipages == t.wikipages)
  {
    if table == Engines {
      SaveEntityInEffect(t, Engines, title, None, Some(WikiUrl(title)), EntityPayload(Engines, None, title, lead, wikitext, data, parseDate));
    } else {
      var page := SaveWikipageIn(t, title, WikiUrl(title), lead, wikitext);
      SaveEntityInEffect(page.tables, table, title, Some(page.id), None, EntityPayload(table, Some(page.id), title, lead, wikitext, data, parseDate));
    }
  }

  /** The wikipage and the row a non-engine job wrote are found again by a second run. */
  lemma LinkedRowRerun(t: Tables, table: Table, title: string, lead: Option<string>, wikitext: Option<string>, page: Written, p: Payload,
                       lead': Option<string>, wikitext': Option<string>, page': Written, p': Payload)
    requires Complete(t) && table != Engines
    requires page == SaveWikipageIn(t, title, WikiUrl(title), lead, wikitext)
    requires p.wikipageId == Put(Some(page.id))
    requires page' == SaveWikipageIn(SaveEntityIn(page.tables, table, title, Some(page.id), None, p).tables, title, WikiUrl(title), lead', wikitext')
    ensures var w := SaveEntityIn(page.tables, table, title, Some(page.id), None, p);
      var w' := SaveEntityIn(page'.tables, table, title, Some(page'.id), None, p');
      w'.id == w.id && |w'.tables.wikipages| == |w.tables.wikipages| && |RowsIn(w'.tables, table)| == |RowsIn(w.tables, table)|
  {
    var w := SaveEntityIn(page.tables, table, title, Some(page.id), None, p);
    SaveWikipageInRerun(t, title, WikiUrl(title), lead, wikitext, lead', wikitext');
    assert page'.id == page.id;
    SaveEntityInRerun(page.tables, table, title, Some(page.id), None, p, page'.tables, p');
  }

  /**
   * Storing the same page again, whatever the payload, adds no wikipage and
   * no row: the row is found by the wikipage the first run wrote, or by the
   * engine's own URL.
   */
  lemma StoreEntityPageRerun(table: Table, t: Tables, title: string, lead: Option<string>, wikitext: Option<string>, data: Data,
                             parseDate: string -> Option<string>, lead': Option<string>, wikitext': Option<string>, data': Data)
    requires Complete(t)
    ensures var w := StoreEntityPage(table, t, title, lead, wikitext, data, parseDate);
      var w' := StoreEntityPage(table, w.tables, title, lead', wikitext', data', parseDate);
      w'.id == w.id && |w'.tables.wikipages| == |w.tables.wikipages| && |RowsIn(w'.tables, table)| == |RowsIn(w.tables, table)|
  {
    var w := StoreEntityPage(table, t, title, lead, wikitext, data, parseDate);
    if table == Engines {
      PayloadKeys(Engines, None, title, lead, wikitext, data, parseDate);
      SaveEntityInRerun(t, Engines, title, None, Some(WikiUrl(title)), EntityPayload(Engines, None, title, lead, wikitext, data, parseDate),
                        w.tables, EntityPayload(Engines, None, title, lead', wikitext', data', parseDate));
    } else {
      var page := SaveWikipageIn(t, title, WikiUrl(title), lead, wikitext);
      var page' := SaveWikipageIn(w.tables, title, WikiUrl(title), lead', wikitext');
      PayloadKeys(table, Some(page.id), title, lead, wikitext, data, parseDate);
      LinkedRowRerun(t, table, title, lead, wikitext, page, EntityPayload(table, Some(page.id), title, lead, wikitext, data, parseDate),
                     lead', wikitext', page', EntityPayload(table, Some(page'.id), title, lead', wikitext', data', parseDate));
    }
  }

  /** The genre, mode and series jobs store a page even when its parse is empty. */
  lemma EmptyParseStillStored(table: Table, t: Tables, m: Memo, title: string, env: PageEnv, bundle: Bundle)
    requires Complete(t) && !ReadsInfobox(table) && env.lead.Returned?
    ensures TaxonomyParsed(table, t, m, title, env, bundle, map[]).outcome.Stored?
  {
  }

  /**
   * The columns each job's payload writes into a row: the company job its
   * wikipage, clean name, cover, founding year and website; the platform job
   * its wikipage, cover, release date and website; the engine job everything
   * but the wikipage, clean name and founding year; genres, modes and series
   * only their wikipage. Nothing else changes.
   */
  lemma PayloadColumns(table: Table, e: Entity, wikipageId: Option<nat>, title: string, lead: Option<string>, wikitext: Option<string>,
                       data: Data, parseDate: string -> Option<string>)
    ensures var r := Fill(e, EntityPayload(table, wikipageId, title, lead, wikitext, data, parseDate));
      var cover := StringOf(Lookup(data, CoverKey)); var website := StringOf(Lookup(data, "website_url"));
      var released := ReleaseDate(DateArg(Lookup(data, "release_date")), parseDate);
      (table == Companies ==> r == e.(wikipageId := wikipageId, cleanName := Some(CleansTitles.CleanTitle(title)), cover := cover,
                                      founded := FoundedOf(Lookup(data, "founded")), website := website)) &&
      (table == Platforms ==> r == e.(wikipageId := wikipageId, cover := cover, releaseDate := released, website := website)) &&
      (table == Engines ==> r == e.(cover := cover, releaseDate := released, website := website, title := Some(title),
                                    url := Some(WikiUrl(title)), description := lead, wikitext := wikitext)) &&
      (!ReadsInfobox(table) ==> r == e.(wikipageId := wikipageId))
  {
  }

  /**
   * What a stored taxonomy page leaves behind: the row it wrote, at most one
   * row appended to its table, names still unique, and for an engine the
   * wikipages untouched.
   */
  lemma TaxonomyParsedStores(table: Table, t: Tables, m: Memo, title: string, env: PageEnv, bundle: Bundle, parsed: Data)
    requires Complete(t)
    requires TaxonomyParsed(table, t, m, title, env, bundle, parsed).outcome.Stored?
    ensures env.lead.Returned?
    ensures var r := TaxonomyParsed(table, t, m, title, env, bundle, parsed);
      exists id :: RowWritten(table, RowsIn(t, table), RowsIn(r.tables, table), r.tables.wikipages, id, title, env.lead.value, NonEmptyString(bundle.wikitext))
    ensures var r := TaxonomyParsed(table, t, m, title, env, bundle, parsed);
      var rows := RowsIn(r.tables, table); var before := RowsIn(t, table);
      (|rows| == |before| || (|rows| == |before| + 1 && rows[..|before|] == before)) &&
      (NamesUnique(before) ==> NamesUnique(rows)) &&
      (table == Engines ==> r.tables.wikipages == t.wikipages)
  {
    var image := if ReadsInfobox(table) then MainImageFor(parsed, env) else Returned(None);
    var data := WithCoverFallback(parsed, image.value);
    var wikitext := NonEmptyString(bundle.wikitext);
    var w := StoreEntityPage(table, t, title, env.lead.value, wikitext, data, env.parseDate);
    StoreEntityPageRow(table, t, title, env.lead.value, wikitext, data, env.parseDate);
    StoreEntityPageShape(table, t, title, env.lead.value, wikitext, data, env.parseDate);
    assert RowWritten(table, RowsIn(t, table), RowsIn(w.tables, table), w.tables.wikipages, w.id, title, env.lead.value, wikitext);
  }

  /** A stored taxonomy job wrote its row under the title, from the bundle it fetched. */
  lemma TaxonomyJobStores(table: Table, t: Tables, m: Memo, title: string, env: PageEnv)
    requires Complete(t)
    requires TaxonomyJob(table, t, m, title, env).outcome.Stored?
    ensures var b := FetchStep(m, title, env.parse).0; var r := TaxonomyJob(table, t, m, title, env);
      b.Returned? && env.lead.Returned? &&
      exists id :: RowWritten(table, RowsIn(t, table), RowsIn(r.tables, table), r.tables.wikipages, id, title, env.lead.value, NonEmptyString(b.value.wikitext))
    ensures var r := TaxonomyJob(table, t, m, title, env);
      NamesUnique(RowsIn(t, table)) ==> NamesUnique(RowsIn(r.tables, table))
  {
    var (b, m1) := FetchStep(m, title, env.parse);
    var html := NonEmptyString(b.value.html);
    TaxonomyParsedStores(table, t, m1, title, env, b.value, ParseSpec(env.infoboxes(html.value)));
  }

  /** Storing a parsed page a second time over what the first stored: stored again, nothing added. */
  lemma TaxonomyParsedRerun(table: Table, t: Tables, m: Memo, title: string, env: PageEnv, bundle: Bundle, parsed: Data)
    requires Complete(t)
    requires TaxonomyParsed(table, t, m, title, env, bundle, parsed).outcome.Stored?
    ensures var r := TaxonomyParsed(table, t, m, title, env, bundle, parsed); var r' := TaxonomyParsed(table, r.tables, m, title, env, bundle, parsed);
      r'.outcome.Stored? && |r'.tables.wikipages| == |r.tables.wikipages| && |RowsIn(r'.tables, table)| == |RowsIn(r.tables, table)|
  {
    var image := if ReadsInfobox(table) then MainImageFor(parsed, env) else Returned(None);
    var data := WithCoverFallback(parsed, image.value);
    var wikitext := NonEmptyString(bundle.wikitext);
    StoreEntityPageRerun(table, t, title, env.lead.value, wikitext, data, env.parseDate, env.lead.value, wikitext, data);
  }

  /**
   * Re-running a stored taxonomy page's job with the memo it left reads the
   * cached bundle, stores again, and adds no wikipage and no row.
   */
  lemma TaxonomyJobRerun(table: Table, t: Tables, m: Memo, title: string, env: PageEnv)
    requires Complete(t)
    requires TaxonomyJob(table, t, m, title, env).outcome.Stored?
    ensures var r := TaxonomyJob(table, t, m, title, env); var r' := TaxonomyJob(table, r.tables, r.memo, title, env);
      r'.outcome.Stored? && r'.memo == r.memo &&
      |r'.tables.wikipages| == |r.tables.wikipages| && |RowsIn(r'.tables, table)| == |RowsIn(r.tables, table)|
  {
    var (b, m1) := FetchStep(m, title, env.parse);
    RepeatFetchIsCached(m, title, env.parse, env.parse);
    var html := NonEmptyString(b.value.html);
    TaxonomyParsedRerun(table, t, m1, title, env, b.value, ParseSpec(env.infoboxes(html.value)));
  }
}
