/**
 * `ReadCitiesFromExcel` (Program.cs, lines 69-121): the first worksheet is read row by row
 * from row 2 to row `Dimension.Rows`, and every row with a name and two coordinates that parse
 * becomes a `City`. The worksheet is given as its rows; the cell reads, `double.TryParse`
 * and the progress output are outside the model.
 */
module Ingestion {
  import opened Wrappers
  import opened Text
  import opened Records

  /**
   * The three cells the reader looks at in one row, each as `Value?.ToString()`: column 1
   * the longitude, column 2 the latitude, column 3 the name; `None` for an empty cell.
   */
  datatype Row = Row(longitude: Option<string>, latitude: Option<string>, name: Option<string>)

  /**
   * Lines 90-93 and 96-99: the cell text is trimmed and its commas become periods before it is
   * handed to `parse` (`double.TryParse` with the invariant culture); an empty cell stays
   * null, which does not parse.
   */
  function Coordinate(cell: Option<string>, parse: string -> Option<real>): Option<real>
  {
    match cell
    case None => None
    case Some(text) => parse(ReplaceCommas(Trim(text, IsWhiteSpace)))
  }

  /**
   * Lines 83-107: the settlement one data row yields. A null or empty name skips the row, as
   * does a longitude or latitude that does not parse; the name is stored trimmed.
   */
  function RowPlace(row: Row, parse: string -> Option<real>): Option<Place>
  {
    if row.name.None? || row.name.value == "" then None
    else
      match (Coordinate(row.longitude, parse), Coordinate(row.latitude, parse))
      case (Some(longitude), Some(latitude)) => Some(Place(Trim(row.name.value, IsWhiteSpace), latitude, longitude))
      case _ => None
  }

  /** The row reader that `ReadCitiesFromExcel` applies to each data row. */
  function Reader(parse: string -> Option<real>): Row -> Option<Place>
  {
    row => RowPlace(row, parse)
  }

  /** What `read` yields for rows 2 to `n`, in row order; `rows[0]`, the header row, is never read. */
  function Collect(rows: seq<Row>, read: Row -> Option<Place>, n: nat): seq<Place>
    requires n <= |rows|
  {
    if n <= 1 then []
    else if read(rows[n - 1]).Some? then Collect(rows, read, n - 1) + [read(rows[n - 1]).value]
    else Collect(rows, read, n - 1)
  }

  /**
   * The rows are read in order and filtered, nothing else: `source[k]` is the row the k-th
   * settlement comes from; those rows are data rows, strictly increasing, and every data row
   * that yields a settlement is among them.
   */
  lemma {:induction false} CollectKeepsRowOrder(rows: seq<Row>, read: Row -> Option<Place>, n: nat)
    returns (source: seq<nat>)
    requires n <= |rows|
    ensures |source| == |Collect(rows, read, n)|
    ensures forall k :: 0 <= k < |source| ==>
              1 <= source[k] < n && read(rows[source[k]]) == Some(Collect(rows, read, n)[k])
    ensures forall k, l :: 0 <= k < l < |source| ==> source[k] < source[l]
    ensures forall j :: 1 <= j < n && read(rows[j]).Some? ==> j in source
  {
    if n <= 1 {
      source := [];
    } else {
      var before := CollectKeepsRowOrder(rows, read, n - 1);
      var prev := Collect(rows, read, n - 1);
      match read(rows[n - 1])
      case Some(place) =>
        assert Collect(rows, read, n) == prev + [place];
        source := before + [n - 1];
        assert forall k :: 0 <= k < |before| ==> source[k] == before[k];
      case None =>
        assert Collect(rows, read, n) == prev;
        source := before;
    }
  }

  /** The list has at most one settlement per data row: at most `rowCount - 1` of them. */
  lemma {:induction false} CollectAtMostDataRows(rows: seq<Row>, read: Row -> Option<Place>, n: nat)
    requires 1 <= n <= |rows|
    ensures |Collect(rows, read, n)| <= n - 1
  {
    if n > 1 {
      CollectAtMostDataRows(rows, read, n - 1);
    }
  }

  /**
   * A name of white space only is not empty, so the row is kept, and its stored name is
   * the empty string.
   */
  lemma BlankNameStoredEmpty(row: Row, parse: string -> Option<real>)
    requires row.name.Some? && row.name.value != "" && AllWhite(row.name.value, IsWhiteSpace)
    requires Coordinate(row.longitude, parse).Some? && Coordinate(row.latitude, parse).Some?
    ensures RowPlace(row, parse).Some? && RowPlace(row, parse).value.name == ""
  {
    var i, j := TrimSpan(row.name.value, IsWhiteSpace);
  }

  /** White space around a coordinate does not change the value read. */
  lemma CoordinateIgnoresPadding(pre: string, text: string, post: string, parse: string -> Option<real>)
    requires AllWhite(pre, IsWhiteSpace) && AllWhite(post, IsWhiteSpace)
    ensures Coordinate(Some(pre + text + post), parse) == Coordinate(Some(text), parse)
  {
    TrimAbsorbsPadding(pre, text, post, IsWhiteSpace);
  }

  /**
   * Lines 69-121. `rows` are the worksheet's rows 1 to `Dimension.Rows`. A worksheet with no
   * cell has no `Dimension`, and reading its row count raises out of the method: `None`.
   * Otherwise the cities are fresh objects, none twice, with no population yet, holding in
   * order the settlements `Collect` reads with `Reader(parse)`. The row loop's catch is not modelled as a path:
   * no statement of the loop raises here.
   */
  method ReadCitiesFromExcel(rows: seq<Row>, parse: string -> Option<real>) returns (cities: Option<seq<City>>)
    ensures cities.None? <==> rows == []
    ensures cities.Some? ==> Places(cities.value) == Collect(rows, Reader(parse), |rows|)
    ensures cities.Some? ==> Distinct(cities.value)
    ensures cities.Some? ==> forall k :: 0 <= k < |cities.value| ==>
              fresh(cities.value[k]) && cities.value[k].Fields() == Entry(None, None)
  {
    if rows == [] {
      return None;
    }
    var list: seq<City> := [];
    var row := 2;
    while row <= |rows|
      invariant 2 <= row <= |rows| + 1
      invariant Places(list) == Collect(rows, Reader(parse), row - 1)
      invariant Distinct(list)
      invariant forall k :: 0 <= k < |list| ==> fresh(list[k]) && list[k].Fields() == Entry(None, None)
    {
      var cells := rows[row - 1];
      ghost var read := Reader(parse)(cells);
      if cells.name.None? || cells.name.value == "" {
        assert read == None;
        row := row + 1;
        continue;
      }
      var longitude := Coordinate(cells.longitude, parse);
      if longitude.None? {
        assert read == None;
        row := row + 1;
        continue;
      }
      var latitude := Coordinate(cells.latitude, parse);
      if latitude.None? {
        assert read == None;
        row := row + 1;
        continue;
      }
      var city := new City(Trim(cells.name.value, IsWhiteSpace), latitude.value, longitude.value);
      assert read == Some(city.AsPlace());
      assert Collect(rows, Reader(parse), row) == Places(list) + [city.AsPlace()];
      DistinctAppend(list, city);
      PlacesAppend(list, city);
      list := list + [city];
      row := row + 1;
    }
    cities := Some(list);
  }
}
