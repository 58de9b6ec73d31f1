/** The GeoPackage handler: the existence check of `from_path`, the
    statements `add_columns` issues, the `INSERT` statement and its bound
    values for a feature, and the ordering of `table_names`. The database
    itself is outside the model: a statement's execution is a parameter. */
module GpkgHandler {
  import opened Common
  import opened IndexMaps

  /** `GpkgError`. */
  datatype GpkgError = DatabaseExists(path: string) | SqlxError(message: string)

  /** `from_path`: an existing path is refused with its debug rendering
      (given as `debug`); otherwise the URL handed to `from_url`. */
  function FromPath(path: string, pathExists: bool, debug: string -> string): (r: Result<string, GpkgError>)
    ensures r.Err? <==> pathExists
    ensures r.Err? ==> r.error == DatabaseExists(debug(path))
    ensures r.Ok? ==> StartsWith(r.value, "sqlite://") && r.value[9..] == path
  {
    if pathExists then Err(DatabaseExists(debug(path)))
    else
      var url := "sqlite://" + path;
      assert url[..9] == "sqlite://";
      Ok(url)
  }

  // ---------------------------------------------------------------------
  // add_columns

  const ALTER_PREFIX: string := "ALTER TABLE mpoly3d ADD COLUMN "

  /** The statement that adds one column. */
  function AlterColumn(column: Entry<string>): string {
    ALTER_PREFIX + column.key + " " + column.value + ";"
  }

  /** The statement names the column and its type in place. */
  lemma {:induction false} AlterColumnLayout(column: Entry<string>)
    ensures var q := AlterColumn(column);
      var n := |ALTER_PREFIX|;
      |q| == n + |column.key| + 1 + |column.value| + 1 &&
      q[..n] == ALTER_PREFIX && q[n..n + |column.key|] == column.key && q[n + |column.key|] == ' ' &&
      q[n + |column.key| + 1..|q| - 1] == column.value && q[|q| - 1] == ';'
  {
  }

  /** The statements `add_columns` issues when executing one gives
      `execute`: one per column in map order, stopping after the first that
      fails, whose error is returned. */
  function AddColumnsRun(columns: seq<Entry<string>>, execute: string -> Result<(), string>)
    : (seq<string>, Result<(), GpkgError>)
  {
    if columns == [] then ([], Ok(()))
    else
      var q := AlterColumn(columns[0]);
      match execute(q)
      case Err(m) => ([q], Err(SqlxError(m)))
      case Ok(_) =>
        var rest := AddColumnsRun(columns[1..], execute);
        ([q] + rest.0, rest.1)
  }

  /** When every statement succeeds, `add_columns` issues one per column, in
      order, and succeeds. */
  lemma {:induction false} AddColumnsAllSucceed(columns: seq<Entry<string>>, execute: string -> Result<(), string>)
    requires forall k :: 0 <= k < |columns| ==> execute(AlterColumn(columns[k])).Ok?
    ensures AddColumnsRun(columns, execute) == (MapSeq(columns, AlterColumn), Ok(()))
  {
    if columns != [] {
      var tail := columns[1..];
      assert forall k :: 0 <= k < |tail| ==> tail[k] == columns[k + 1];
      AddColumnsAllSucceed(tail, execute);
      assert MapSeq(columns, AlterColumn) == [AlterColumn(columns[0])] + MapSeq(tail, AlterColumn);
    }
  }

  /** When the statement for column `k` is the first to fail, `add_columns`
      issues the statements up to and including it and returns its error. */
  lemma {:induction false} AddColumnsStopsAtFailure(columns: seq<Entry<string>>, execute: string -> Result<(), string>,
                                                    k: nat)
    requires k < |columns| && execute(AlterColumn(columns[k])).Err?
    requires forall j :: 0 <= j < k ==> execute(AlterColumn(columns[j])).Ok?
    ensures AddColumnsRun(columns, execute) ==
      (MapSeq(columns[..k + 1], AlterColumn), Err(SqlxError(execute(AlterColumn(columns[k])).error)))
  {
    if k == 0 {
      assert MapSeq(columns[..1], AlterColumn) == [AlterColumn(columns[0])];
    } else {
      var tail := columns[1..];
      assert forall j :: 0 <= j < |tail| ==> tail[j] == columns[j + 1];
      AddColumnsStopsAtFailure(tail, execute, k - 1);
      assert columns[..k + 1] == [columns[0]] + tail[..k];
      assert MapSeq(columns[..k + 1], AlterColumn) == [AlterColumn(columns[0])] + MapSeq(tail[..k], AlterColumn);
    }
  }

  /** The loop of `add_columns`. */
  method AddColumns(columns: seq<Entry<string>>, execute: string -> Result<(), string>)
    returns (issued: seq<string>, r: Result<(), GpkgError>)
    ensures (issued, r) == AddColumnsRun(columns, execute)
  {
    issued := [];
    var i := 0;
    while i < |columns|
      invariant 0 <= i <= |columns|
      invariant issued == MapSeq(columns[..i], AlterColumn)
      invariant forall j :: 0 <= j < i ==> execute(AlterColumn(columns[j])).Ok?
    {
      var q := AlterColumn(columns[i]);
      assert columns[..i + 1] == columns[..i] + [columns[i]];
      MapSeqAppend(columns[..i], columns[i], AlterColumn);
      issued := issued + [q];
      var e := execute(q);
      if e.Err? {
        AddColumnsStopsAtFailure(columns, execute, i);
        return issued, Err(SqlxError(e.error));
      }
      i := i + 1;
    }
    assert columns[..i] == columns;
    AddColumnsAllSucceed(columns, execute);
    return issued, Ok(());
  }

  // ---------------------------------------------------------------------
  // insert_feature

  /** A value bound to a placeholder. */
  datatype Bind = Blob(bytes: seq<byte>) | Text(text: string)

  const INSERT_HEAD: string := "INSERT INTO mpoly3d ("
  const VALUES: string := ") VALUES ("

  /** The statement without attributes. */
  const INSERT_GEOMETRY_ONLY: string := INSERT_HEAD + "geometry" + VALUES + "?" + ")"

  /** The column names in map order. */
  function KeyNames(attributes: seq<Entry<string>>): (r: seq<string>)
    ensures |r| == |attributes| && forall k :: 0 <= k < |r| ==> r[k] == attributes[k].key
  {
    seq(|attributes|, k requires 0 <= k < |attributes| => attributes[k].key)
  }

  function Placeholders(n: nat): (r: seq<string>)
    ensures |r| == n && forall k :: 0 <= k < n ==> r[k] == "?"
  {
    seq(n, k => "?")
  }

  /** The statement `insert_feature` prepares. */
  function InsertFeatureQuery(attributes: seq<Entry<string>>): string {
    if attributes == [] then INSERT_GEOMETRY_ONLY
    else
      INSERT_HEAD + "geometry, " + Join(KeyNames(attributes), ", ") +
      VALUES + "?, " + Join(Placeholders(|attributes|), ", ") + ")"
  }

  /** The values bound to it: the geometry bytes, then the attribute values
      in the order of their keys. */
  function InsertFeatureBinds(bytes: seq<byte>, attributes: seq<Entry<string>>): (r: seq<Bind>)
    ensures |r| == |attributes| + 1 && r[0] == Blob(bytes)
    ensures forall k :: 0 <= k < |attributes| ==> r[k + 1] == Text(attributes[k].value)
  {
    [Blob(bytes)] + seq(|attributes|, k requires 0 <= k < |attributes| => Text(attributes[k].value))
  }

  /** With or without attributes, the statement lists `geometry` and then
      every key, as columns, and one placeholder per column. */
  lemma {:induction false} InsertFeatureQueryShape(attributes: seq<Entry<string>>)
    ensures InsertFeatureQuery(attributes) ==
      INSERT_HEAD + Join(["geometry"] + KeyNames(attributes), ", ") +
      VALUES + Join(Placeholders(|attributes| + 1), ", ") + ")"
  {
    var n := |attributes|;
    if n == 0 {
      assert ["geometry"] + KeyNames(attributes) == ["geometry"];
      assert Placeholders(1) == ["?"];
    } else {
      var j1, j2 := Join(KeyNames(attributes), ", "), Join(Placeholders(n), ", ");
      JoinCons("geometry", KeyNames(attributes), ", ");
      assert Placeholders(n + 1) == ["?"] + Placeholders(n);
      JoinCons("?", Placeholders(n), ", ");
      assert "geometry" + ", " + j1 == "geometry, " + j1;
      assert "?" + ", " + j2 == "?, " + j2;
    }
  }

  /** `n` placeholders joined with ", " hold `n` question marks. */
  lemma {:induction false} PlaceholderMarks(n: nat)
    requires n > 0
    ensures Count(Join(Placeholders(n), ", "), '?') == n
  {
    if n == 1 {
      assert Join(Placeholders(1), ", ") == "?";
    } else {
      assert Placeholders(n) == Placeholders(n - 1) + ["?"];
      JoinAppend(Placeholders(n - 1), "?", ", ");
      PlaceholderMarks(n - 1);
      CountAppend(Join(Placeholders(n - 1), ", "), ", ", '?');
      CountAppend(Join(Placeholders(n - 1), ", ") + ", ", "?", '?');
      assert Count(", ", '?') == 0 && Count("?", '?') == 1;
    }
  }

  /** Names without `?` joined with ", " hold no question mark. */
  lemma {:induction false} NamesHaveNoMarks(names: seq<string>)
    requires forall k :: 0 <= k < |names| ==> '?' !in names[k]
    ensures '?' !in Join(names, ", ")
  {
    if |names| > 1 {
      NamesHaveNoMarks(names[..|names| - 1]);
    }
  }

  /** The fixed text of the statement holds no question mark. */
  lemma {:induction false} ConstantsHaveNoMarks()
    ensures '?' !in INSERT_HEAD && '?' !in VALUES && '?' !in ")"
  {
  }

  /** The statement around column names without `?` holds exactly the
      question marks of its `n` placeholders. */
  lemma {:induction false} QueryMarks(b: string, n: nat)
    requires '?' !in b && n > 0
    ensures Count(INSERT_HEAD + b + VALUES + Join(Placeholders(n), ", ") + ")", '?') == n
  {
    var a, c, d := INSERT_HEAD, VALUES, Join(Placeholders(n), ", ");
    ConstantsHaveNoMarks();
    CountAbsent(a, '?');
    CountAbsent(b, '?');
    CountAbsent(c, '?');
    CountAbsent(")", '?');
    PlaceholderMarks(n);
    CountAppend(a, b, '?');
    CountAppend(a + b, c, '?');
    CountAppend(a + b + c, d, '?');
    CountAppend(a + b + c + d, ")", '?');
  }

  /** Unless a key holds a `?`, the statement has exactly as many
      placeholders as there are bound values. */
  lemma {:induction false} InsertFeaturePlaceholders(bytes: seq<byte>, attributes: seq<Entry<string>>)
    requires forall k :: 0 <= k < |attributes| ==> '?' !in attributes[k].key
    ensures Count(InsertFeatureQuery(attributes), '?') == |InsertFeatureBinds(bytes, attributes)|
  {
    var names := ["geometry"] + KeyNames(attributes);
    InsertFeatureQueryShape(attributes);
    NamesHaveNoMarks(names) by {
      forall k | 0 <= k < |names| ensures '?' !in names[k] {
        if k > 0 {
          assert names[k] == attributes[k - 1].key;
        }
      }
    }
    QueryMarks(Join(names, ", "), |attributes| + 1);
  }

  // ---------------------------------------------------------------------
  // table_names

  /** The order of Rust's `String`: lexicographic by character. */
  predicate StrLe(a: string, b: string)
    decreases |a|
  {
    if a == [] then true
    else if b == [] then false
    else if a[0] != b[0] then a[0] < b[0]
    else StrLe(a[1..], b[1..])
  }

  lemma {:induction false} StrLeTotal(a: string, b: string)
    ensures StrLe(a, b) || StrLe(b, a)
    decreases |a|
  {
    if a != [] && b != [] && a[0] == b[0] {
      StrLeTotal(a[1..], b[1..]);
    }
  }

  predicate SortedNames(s: seq<string>) {
    forall i :: 0 <= i < |s| - 1 ==> StrLe(s[i], s[i + 1])
  }

  /** `x` placed before the first name it does not follow. */
  function InsertName(x: string, s: seq<string>): (r: seq<string>)
    ensures |r| == |s| + 1
    ensures r[0] == x || (s != [] && r[0] == s[0])
  {
    if s == [] then [x]
    else if StrLe(x, s[0]) then [x] + s
    else [s[0]] + InsertName(x, s[1..])
  }

  /** Inserting adds exactly `x`. */
  lemma {:induction false} InsertNameMultiset(x: string, s: seq<string>)
    ensures multiset(InsertName(x, s)) == multiset(s) + multiset{x}
  {
    if s != [] && !StrLe(x, s[0]) {
      InsertNameMultiset(x, s[1..]);
      assert s == [s[0]] + s[1..];
    }
  }

  /** Inserting into sorted names keeps them sorted. */
  lemma {:induction false} InsertNameSorted(x: string, s: seq<string>)
    requires SortedNames(s)
    ensures SortedNames(InsertName(x, s))
  {
    if s != [] && !StrLe(x, s[0]) {
      var tail := s[1..];
      assert SortedNames(tail) by {
        forall i | 0 <= i < |tail| - 1 ensures StrLe(tail[i], tail[i + 1]) {
          assert tail[i] == s[i + 1] && tail[i + 1] == s[i + 2];
        }
      }
      InsertNameSorted(x, tail);
      StrLeTotal(x, s[0]);
      var t := InsertName(x, tail);
      var r := [s[0]] + t;
      forall i | 0 <= i < |r| - 1 ensures StrLe(r[i], r[i + 1]) {
        if i > 0 {
          assert r[i] == t[i - 1] && r[i + 1] == t[i];
        } else if t[0] != x {
          assert r[1] == s[1];
        }
      }
    }
  }

  /** `table_names`: the names the query returns, sorted ascending. */
  function TableNames(rows: seq<string>): (r: seq<string>)
    ensures |r| == |rows|
  {
    if rows == [] then []
    else InsertName(rows[|rows| - 1], TableNames(rows[..|rows| - 1]))
  }

  /** The names come back sorted, as a permutation of the rows. */
  lemma {:induction false} TableNamesSpec(rows: seq<string>)
    ensures SortedNames(TableNames(rows)) && multiset(TableNames(rows)) == multiset(rows)
  {
    if rows != [] {
      var init, x := rows[..|rows| - 1], rows[|rows| - 1];
      TableNamesSpec(init);
      InsertNameSorted(x, TableNames(init));
      InsertNameMultiset(x, TableNames(init));
      assert rows == init + [x];
    }
  }

  /** The statements and the query text of the handler's tests. */
  lemma {:induction false} HandlerExamples()
    ensures INSERT_GEOMETRY_ONLY == "INSERT INTO mpoly3d (geometry) VALUES (?)"
    ensures InsertFeatureQuery([Entry("a", "1")]) == "INSERT INTO mpoly3d (geometry, a) VALUES (?, ?)"
    ensures AlterColumn(Entry("attr1", "TEXT")) == "ALTER TABLE mpoly3d ADD COLUMN attr1 TEXT;"
  {
    assert Join(KeyNames([Entry("a", "1")]), ", ") == "a";
    assert Join(Placeholders(1), ", ") == "?";
  }

  lemma {:induction false} InsertNameFront(x: string, s: seq<string>)
    requires s != [] && StrLe(x, s[0])
    ensures InsertName(x, s) == [x] + s
  {
  }

  lemma {:induction false} InsertNamePast(x: string, s: seq<string>)
    requires s != [] && !StrLe(x, s[0])
    ensures InsertName(x, s) == [s[0]] + InsertName(x, s[1..])
  {
  }

  lemma {:induction false} LastInserted(m: string, s: string, c: string, g: string)
    requires StrLe(s, m) && StrLe(c, s)
    ensures TableNames([m, s, c, g]) == InsertName(g, [c, s, m])
  {
    var rows := [m, s, c, g];
    assert rows[..3] == [m, s, c] && rows[3] == g;
    TableNamesOfThree(m, s, c);
  }

  lemma {:induction false} InsertSecond(m: string, s: string, c: string, g: string)
    requires StrLe(s, m) && StrLe(c, s) && !StrLe(g, c) && StrLe(g, s)
    ensures InsertName(g, [c, s, m]) == [c, g, s, m]
  {
    var t := [c, s, m];
    assert t[0] == c && t[1..] == [s, m];
    InsertNamePast(g, t);
    assert InsertName(g, t) == [c] + InsertName(g, [s, m]);
    InsertNameFront(g, [s, m]);
    assert [c] + ([g] + [s, m]) == [c, g, s, m];
  }

  /** One more row is inserted into the names of the rows before it. */
  lemma {:induction false} TableNamesSnoc(rows: seq<string>, x: string)
    ensures TableNames(rows + [x]) == InsertName(x, TableNames(rows))
  {
    assert (rows + [x])[..|rows|] == rows;
  }

  lemma {:induction false} TableNamesOfTwo(m: string, s: string)
    requires StrLe(s, m)
    ensures TableNames([m, s]) == [s, m]
  {
    assert [m, s][..1] == [m];
  }

  lemma {:induction false} TableNamesOfThree(m: string, s: string, c: string)
    requires StrLe(s, m) && StrLe(c, s)
    ensures TableNames([m, s, c]) == [c, s, m]
  {
    TableNamesSnoc([m, s], c);
    assert [m, s] + [c] == [m, s, c];
    TableNamesOfTwo(m, s);
    InsertNameFront(c, [s, m]);
  }

  /** Four names, returned in an order that needs every kind of insertion
      step, come back sorted. */
  lemma {:induction false} TableNamesOfFour(m: string, s: string, c: string, g: string)
    requires StrLe(s, m) && StrLe(c, s) && !StrLe(g, c) && StrLe(g, s)
    ensures TableNames([m, s, c, g]) == [c, g, s, m]
  {
    LastInserted(m, s, c, g);
    InsertSecond(m, s, c, g);
  }

  /** A common prefix does not change the order. */
  lemma {:induction false} StrLeCommonPrefix(p: string, a: string, b: string)
    ensures StrLe(p + a, p + b) == StrLe(a, b)
  {
    if p != [] {
      var pa, pb := p + a, p + b;
      assert pa != [] && pb != [] && pa[0] == pb[0] == p[0];
      assert pa[1..] == p[1..] + a && pb[1..] == p[1..] + b;
      assert StrLe(pa, pb) == StrLe(pa[1..], pb[1..]);
      StrLeCommonPrefix(p[1..], a, b);
    } else {
      assert p + a == a && p + b == b;
    }
  }

  lemma {:induction false} FreshDatabaseOrder()
    ensures StrLe("gpkg_spatial_ref_sys", "mpoly3d")
    ensures StrLe("gpkg_contents", "gpkg_spatial_ref_sys")
    ensures !StrLe("gpkg_geometry_columns", "gpkg_contents")
    ensures StrLe("gpkg_geometry_columns", "gpkg_spatial_ref_sys")
  {
    var p := "gpkg_";
    assert "gpkg_contents" == p + "contents";
    assert "gpkg_spatial_ref_sys" == p + "spatial_ref_sys";
    assert "gpkg_geometry_columns" == p + "geometry_columns";
    StrLeCommonPrefix(p, "contents", "spatial_ref_sys");
    StrLeCommonPrefix(p, "geometry_columns", "contents");
    StrLeCommonPrefix(p, "geometry_columns", "spatial_ref_sys");
  }

  /** The names of a fresh database, as the query may return them, come back
      in ascending order. */
  lemma {:induction false} TableNamesExample()
    ensures TableNames(["mpoly3d", "gpkg_spatial_ref_sys", "gpkg_contents", "gpkg_geometry_columns"]) ==
      ["gpkg_contents", "gpkg_geometry_columns", "gpkg_spatial_ref_sys", "mpoly3d"]
  {
    FreshDatabaseOrder();
    TableNamesOfFour("mpoly3d", "gpkg_spatial_ref_sys", "gpkg_contents", "gpkg_geometry_columns");
  }
}
