/**
 * `InfoboxParser::parse`: the rows of every `table.infobox` of a page, in
 * document order, folded into one flat map from internal keys to values, and
 * the cover image taken from the first `td a.image img`.
 */
module InfoboxParser {
  import opened Wrappers
  import opened PhpStrings
  import opened InfoboxCells

  /** A `tr`: the text of its `th` (None when it has none) and its `td` (None when it has none). */
  datatype Row = Row(header: Option<string>, cell: Option<Cell>)

  type Data = map<string, Value>

  /** The English infobox labels and the internal key each one maps to. */
  const FieldMap: map<string, string> := map[
    "Developer" := "developers", "Developers" := "developers", "Developer(s)" := "developers",
    "Publisher" := "publishers", "Publishers" := "publishers", "Publisher(s)" := "publishers",
    "Publication" := "publishers",
    "Genre" := "genres", "Genres" := "genres", "Genre(s)" := "genres",
    "Engine" := "engines", "Engines" := "engines", "Engine(s)" := "engines",
    "Mode" := "modes", "Modes" := "modes", "Mode(s)" := "modes",
    "Series" := "series",
    "Platform" := "platforms", "Platforms" := "platforms", "Platform(s)" := "platforms",
    "Release" := "release_date", "Released" := "release_date", "Release date" := "release_date",
    "Release dates" := "release_date", "Release date(s)" := "release_date",
    "First release" := "release_date", "Initial release" := "release_date",
    "Founded" := "founded", "Website" := "website_url", "Website(s)" := "website_url"]

  const CoverKey: string := "cover_image_url"

  /** The key under which the anchor targets of a list key are stored. */
  function LinkTitlesKey(key: string): string {
    key + "_link_titles"
  }

  /** The keys a row can write: the internal keys and the link-title keys of the list keys. */
  predicate Writable(k: string) {
    k in FieldMap.Values || exists key :: key in ListKeys && k == LinkTitlesKey(key)
  }

  /** The rows of all infoboxes, in document order. */
  function Rows(infoboxes: seq<seq<Row>>): (rows: seq<Row>)
  {
    if infoboxes == [] then [] else Rows(infoboxes[..|infoboxes| - 1]) + infoboxes[|infoboxes| - 1]
  }

  /** A row contributes when it has a header and a cell and its trimmed header is a known label. */
  predicate Qualifies(row: Row) {
    row.header.Some? && row.cell.Some? && Trim(row.header.value) in FieldMap
  }

  function KeyOf(row: Row): string
    requires Qualifies(row)
  {
    FieldMap[Trim(row.header.value)]
  }

  /** The effect of one row on the data collected so far. */
  function ApplyRow(data: Data, row: Row): Data {
    if !Qualifies(row) then data
    else
      var key := KeyOf(row);
      var cell := row.cell.value;
      if key in ListKeys then
        var targets := AnchorTargets(cell);
        var links := Links(cell);
        if targets != [] then
          data[key := List(if links != [] then links else targets)][LinkTitlesKey(key) := List(targets)]
        else
          data[key := List(if links != [] then links else ListOf(cell))]
      else data[key := DataFromCell(cell, key)]
  }

  /** The rows applied in order. */
  function ApplyRows(data: Data, rows: seq<Row>): Data {
    if rows == [] then data else ApplyRow(ApplyRows(data, rows[..|rows| - 1]), rows[|rows| - 1])
  }

  /** The `src` of every `a.image img` in a `td`, in document order. */
  function Images(rows: seq<Row>): seq<Option<string>> {
    if rows == [] then []
    else
      var last := rows[|rows| - 1];
      Images(rows[..|rows| - 1]) + (if last.cell.Some? then last.cell.value.images else [])
  }

  /** A truthy protocol-relative src gets the https scheme; a missing src is stored as null. */
  function CoverValue(src: Option<string>): Value {
    match src
    case None => Null
    case Some(s) => Str(if !Falsy(s) && StartsWith(s, "//") then "https:" + s else s)
  }

  /** The image fallback: applied unless a non-null cover is already set. */
  function WithCover(data: Data, rows: seq<Row>): Data {
    if CoverKey in data && data[CoverKey] != Null then data
    else
      var images := Images(rows);
      if images != [] then data[CoverKey := CoverValue(images[0])] else data
  }

  /** What `parse` returns for a page whose infobox tables are given. */
  function ParseSpec(infoboxes: seq<seq<Row>>): Data {
    if infoboxes == [] then map[]
    else
      var rows := Rows(infoboxes);
      WithCover(ApplyRows(map[], rows), rows)
  }

  /** `parse`. */
  method Parse(infoboxes: seq<seq<Row>>) returns (data: Data)
    ensures data == ParseSpec(infoboxes)
    ensures infoboxes == [] ==> data == map[]
  {
    if infoboxes == [] {
      return map[];
    }
    var rows := Rows(infoboxes);
    data := map[];
    for i := 0 to |rows|
      invariant data == ApplyRows(map[], rows[..i])
    {
      assert rows[..i + 1][..i] == rows[..i];
      data := ParseRow(data, rows[i]);
    }
    assert rows[..|rows|] == rows;
    if !(CoverKey in data && data[CoverKey] != Null) {
      var images := Images(rows);
      if images != [] {
        data := data[CoverKey := CoverValue(images[0])];
      }
    }
  }

  /** The body of the loop over the rows of `parse`. */
  method ParseRow(data: Data, row: Row) returns (data': Data)
    ensures data' == ApplyRow(data, row)
  {
    data' := data;
    if row.header.Some? && row.cell.Some? {
      var name := Trim(row.header.value);
      if name in FieldMap {
        var key := FieldMap[name];
        var cell := row.cell.value;
        if key in ListKeys {
          var targets := ExtractAnchorTargets(cell);
          var links := ExtractLinks(cell);
          if targets != [] {
            data' := data'[key := List(if links != [] then links else targets)];
            data' := data'[LinkTitlesKey(key) := List(targets)];
          } else if links != [] {
            data' := data'[key := List(links)];
          } else {
            var list := ExtractList(cell);
            data' := data'[key := List(list)];
          }
        } else {
          data' := data'[key := DataFromCell(cell, key)];
        }
      }
    }
  }

  /** Whether applying the row can write key k. */
  predicate Writes(row: Row, k: string) {
    Qualifies(row)
    && (k == KeyOf(row) || (KeyOf(row) in ListKeys && AnchorTargets(row.cell.value) != [] && k == LinkTitlesKey(KeyOf(row))))
  }

  /** A row leaves every key it does not write as it was. */
  lemma ApplyRowFrame(data: Data, row: Row, k: string)
    requires !Writes(row, k)
    ensures (k in ApplyRow(data, row) <==> k in data)
    ensures k in data ==> ApplyRow(data, row)[k] == data[k]
  {
    if Qualifies(row) {
      var key := KeyOf(row);
      var cell := row.cell.value;
      if key in ListKeys {
        var targets := AnchorTargets(cell);
        var v := if Links(cell) != [] then Links(cell) else if targets != [] then targets else ListOf(cell);
        if targets != [] {
          UpdateFrame(data[key := List(v)], LinkTitlesKey(key), List(targets), k);
          UpdateFrame(data, key, List(v), k);
        } else {
          UpdateFrame(data, key, List(v), k);
        }
      } else {
        UpdateFrame(data, key, DataFromCell(cell, key), k);
      }
    }
  }

  /** Writing one key leaves the others as they were. */
  lemma UpdateFrame(data: Data, key: string, v: Value, k: string)
    requires k != key
    ensures (k in data[key := v] <==> k in data)
    ensures k in data ==> data[key := v][k] == data[k]
  {
  }

  /** Rows that do not write k leave it as it was. */
  lemma {:induction false} ApplyRowsFrame(data: Data, rows: seq<Row>, k: string)
    requires forall i :: 0 <= i < |rows| ==> !Writes(rows[i], k)
    ensures (k in ApplyRows(data, rows) <==> k in data)
    ensures k in data ==> ApplyRows(data, rows)[k] == data[k]
  {
    if rows != [] {
      var init := rows[..|rows| - 1];
      assert forall i :: 0 <= i < |init| ==> init[i] == rows[i];
      ApplyRowsFrame(data, init, k);
      ApplyRowFrame(ApplyRows(data, init), rows[|rows| - 1], k);
    }
  }

  /** Rows without a known label, a header or a cell change nothing. */
  lemma {:induction false} UnqualifiedRowsIgnored(data: Data, rows: seq<Row>)
    requires forall i :: 0 <= i < |rows| ==> !Qualifies(rows[i])
    ensures ApplyRows(data, rows) == data
  {
    if rows != [] {
      var init := rows[..|rows| - 1];
      assert forall i :: 0 <= i < |init| ==> init[i] == rows[i];
      UnqualifiedRowsIgnored(data, init);
    }
  }

  /** Applying rows in two stretches is applying them all. */
  lemma {:induction false} ApplyRowsAppend(data: Data, xs: seq<Row>, ys: seq<Row>)
    ensures ApplyRows(data, xs + ys) == ApplyRows(ApplyRows(data, xs), ys)
    decreases |ys|
  {
    if ys == [] {
      assert xs + ys == xs;
    } else {
      var init := ys[..|ys| - 1];
      assert (xs + ys)[..|xs + ys| - 1] == xs + init;
      ApplyRowsAppend(data, xs, init);
    }
  }

  /** Every key of the result was there before or is one a row can write. */
  lemma {:induction false} ApplyRowsKeys(data: Data, rows: seq<Row>)
    ensures forall k :: k in ApplyRows(data, rows) ==> k in data || Writable(k)
  {
    if rows != [] {
      var init := rows[..|rows| - 1];
      ApplyRowsKeys(data, init);
      ApplyRowKeys(ApplyRows(data, init), rows[|rows| - 1]);
    }
  }

  /** One row adds only keys it can write. */
  lemma ApplyRowKeys(data: Data, row: Row)
    ensures forall k :: k in ApplyRow(data, row) ==> k in data || Writable(k)
  {
    if Qualifies(row) {
      var key := KeyOf(row);
      assert key in FieldMap.Values;
      forall k | k in ApplyRow(data, row) && k !in data
        ensures Writable(k)
      {
        if k != key {
          assert key in ListKeys && k == LinkTitlesKey(key);
        }
      }
    }
  }

  /**
   * The infoboxes are merged into one map and later rows overwrite earlier
   * ones: the value under a row's key is the one that row computes, whatever
   * came before, as long as no later row writes that key.
   */
  lemma LaterRowWins(data: Data, before: seq<Row>, row: Row, after: seq<Row>)
    requires Qualifies(row)
    requires forall i :: 0 <= i < |after| ==> !Writes(after[i], KeyOf(row))
    ensures KeyOf(row) in ApplyRows(data, before + [row] + after)
    ensures ApplyRows(data, before + [row] + after)[KeyOf(row)] == RowValue(row)
    ensures ApplyRows(data, before + [row] + after)[KeyOf(row)] == ApplyRow(map[], row)[KeyOf(row)]
  {
    var k := KeyOf(row);
    var d0 := ApplyRows(data, before);
    var mid := ApplyRow(d0, row);
    ApplyRowsAppend(data, before + [row], after);
    ApplyRowsAppend(data, before, [row]);
    ApplyRowsSingle(d0, row);
    ApplyRowsFrame(mid, after, k);
    RowKeyValue(d0, row);
    RowKeyValue(map[], row);
    SameValue(ApplyRows(data, before + [row] + after), ApplyRows(mid, after), mid, RowValue(row), k);
  }

  lemma ApplyRowsSingle(data: Data, row: Row)
    ensures ApplyRows(data, [row]) == ApplyRow(data, row)
  {
    assert [row][..0] == [];
  }

  /** Chains the equalities of LaterRowWins over plain maps. */
  lemma SameValue(all: Data, tail: Data, mid: Data, v: Value, k: string)
    requires all == tail && k in mid && (k in tail <==> k in mid) && tail[k] == mid[k]
    requires mid[k] == v
    ensures k in all && all[k] == v
  {
  }

  /** The value a qualifying row writes under its own key. */
  function RowValue(row: Row): Value
    requires Qualifies(row)
  {
    var cell := row.cell.value;
    if KeyOf(row) in ListKeys then
      List(if Links(cell) != [] then Links(cell)
           else if AnchorTargets(cell) != [] then AnchorTargets(cell)
           else ListOf(cell))
    else DataFromCell(cell, KeyOf(row))
  }

  /** What a qualifying row writes under its key does not depend on the data before it. */
  lemma RowKeyValue(data: Data, row: Row)
    requires Qualifies(row)
    ensures KeyOf(row) in ApplyRow(data, row)
    ensures ApplyRow(data, row)[KeyOf(row)] == RowValue(row)
  {
    var key := KeyOf(row);
    var cell := row.cell.value;
    if key in ListKeys {
      var targets := AnchorTargets(cell);
      if targets != [] {
        assert |LinkTitlesKey(key)| > |key|;
        UpdateFrame(data[key := RowValue(row)], LinkTitlesKey(key), List(targets), key);
      }
    }
  }

  /**
   * For a list key, the link-title entry holds the anchor targets when there
   * are any and is left as it was otherwise; the key itself holds the link
   * texts, else the targets, else the extractList fallback.
   */
  lemma ListRowEffect(data: Data, row: Row)
    requires Qualifies(row) && KeyOf(row) in ListKeys
    ensures var cell := row.cell.value; var key := KeyOf(row); var r := ApplyRow(data, row);
      && (AnchorTargets(cell) != [] ==> r[LinkTitlesKey(key)] == List(AnchorTargets(cell)))
      && (AnchorTargets(cell) == [] ==> (LinkTitlesKey(key) in r <==> LinkTitlesKey(key) in data))
      && (AnchorTargets(cell) == [] && LinkTitlesKey(key) in data ==> r[LinkTitlesKey(key)] == data[LinkTitlesKey(key)])
      && r[key] == List(if Links(cell) != [] then Links(cell)
                        else if AnchorTargets(cell) != [] then AnchorTargets(cell)
                        else ListOf(cell))
  {
    var key := KeyOf(row);
    assert LinkTitlesKey(key) != key by {
      assert |LinkTitlesKey(key)| > |key|;
    }
  }

  /** No label maps to the cover key, so the rows never write it. */
  lemma NoRowWritesCover(row: Row)
    ensures !Writes(row, CoverKey)
  {
    if Qualifies(row) {
      assert KeyOf(row) in FieldMap.Values;
      assert CoverKey !in FieldMap.Values;
      if KeyOf(row) in ListKeys {
        assert |LinkTitlesKey(KeyOf(row))| != |CoverKey|;
      }
    }
  }

  /** The cover comes only from the first image of the infoboxes, and is set exactly when there is one. */
  lemma CoverFromFirstImage(infoboxes: seq<seq<Row>>)
    requires infoboxes != []
    ensures var rows := Rows(infoboxes); var d := ParseSpec(infoboxes);
      && (CoverKey in d <==> Images(rows) != [])
      && (Images(rows) != [] ==> d[CoverKey] == CoverValue(Images(rows)[0]))
  {
    var rows := Rows(infoboxes);
    forall i | 0 <= i < |rows| ensures !Writes(rows[i], CoverKey) {
      NoRowWritesCover(rows[i]);
    }
    ApplyRowsFrame(map[], rows, CoverKey);
  }

  /** A protocol-relative cover src gets the https scheme. */
  lemma CoverProtocolRelative(rest: string)
    ensures CoverValue(Some("//" + rest)) == Str("https://" + rest)
  {
    assert StartsWith("//" + rest, "//");
    AppendAssoc("https:", "//", rest);
  }
}
