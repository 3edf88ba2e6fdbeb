/** The legacy table accessor of db/init.php. Its fetch, update and delete
    issue the same statements as the accessor of src/db/init.php; its insert
    escapes JSON text like any string and appends a trailing clause; its
    formatRow keeps only the declared columns. */
module LegacyDb {
  import opened Php
  import opened Db

  /** The INSERT statement the legacy `insert` issues. */
  function LegacyInsertStatement(table: string, cols: seq<(string, string)>, data: seq<(string, Value)>,
                                 clause: string, escape: string -> string, php: Runtime): string
  {
    "INSERT into `" + table + "` (" + Join(", ", Keys(data)) + ") VALUES ("
      + Join(", ", Literals(cols, data, escape, php, true)) + ") " + clause + ";"
  }

  /** The legacy INSERT lists the data's keys before its VALUES, like the
      current one, but ends with ") ", the caller's clause and ";". */
  lemma LegacyInsertStatementShape(table: string, cols: seq<(string, string)>, data: seq<(string, Value)>,
                                   clause: string, escape: string -> string, php: Runtime)
    ensures var r := LegacyInsertStatement(table, cols, data, clause, escape, php);
      "INSERT into `" + table + "` (" + Join(", ", Keys(data)) + ") VALUES (" <= r &&
      |r| > |clause| + 2 && r[|r| - |clause| - 3..] == ") " + clause + ";"
  {
    var head := "INSERT into `" + table + "` (" + Join(", ", Keys(data)) + ") VALUES (";
    ConcatEnds(head, Join(", ", Literals(cols, data, escape, php, true)), ") " + clause + ";");
  }

  /** What the legacy formatRow returns: only its first loop. */
  function LegacyFormattedRow(cols: ColumnDef, row: Row, php: Runtime): Row {
    PresentUnique(cols, row, php);
    Present(cols, row, php)
  }

  /** Legacy formatRow's keys are exactly the declared columns present with a
      non-null value, in definition order; undeclared columns are dropped. */
  lemma LegacyFormattedRowKeys(cols: ColumnDef, row: Row, php: Runtime, k: string)
    ensures Keys(LegacyFormattedRow(cols, row, php)) == SetColumns(Keys(cols), row)
    ensures k in Keys(LegacyFormattedRow(cols, row, php)) <==> k in Keys(cols) && Isset(row, k)
  {
    PresentKeys(cols, row, php);
    SetColumnsMember(Keys(cols), row, k);
  }

  /** Legacy formatRow coerces "number" with intval and "json" with
      json_decode and keeps any other type's value unchanged. */
  lemma LegacyFormattedRowValue(cols: ColumnDef, row: Row, php: Runtime, k: string)
    ensures Lookup(LegacyFormattedRow(cols, row, php), k) ==
      if Lookup(cols, k).Some? && Isset(row, k)
      then Some(Coerce(Lookup(cols, k).value, Lookup(row, k).value, php))
      else None
  {
    PresentLookup(cols, row, php, k);
  }

  /** The legacy row is the first part of the current one; the two agree
      when every column of the row is declared and not null. */
  lemma FormatRowVersions(cols: ColumnDef, row: Row, php: Runtime)
    ensures var legacy := LegacyFormattedRow(cols, row, php);
      legacy == FormattedRow(cols, row, php)[..|legacy|]
    ensures (forall k :: k in Keys(row) ==> k in Keys(cols) && Isset(row, k)) ==>
      FormattedRow(cols, row, php) == LegacyFormattedRow(cols, row, php)
  {
    var declared := Present(cols, row, php);
    var rest := DiffKey(row, declared);
    assert FormattedRow(cols, row, php) == declared + rest;
    if forall k :: k in Keys(row) ==> k in Keys(cols) && Isset(row, k) {
      if rest != [] {
        var k := rest[0].0;
        assert Keys(rest)[0] == k;
        DiffKeyKeys(row, declared);
        OutsideMember(Keys(row), Keys(declared), k);
        PresentKeys(cols, row, php);
        SetColumnsMember(Keys(cols), row, k);
        assert false;
      }
    }
  }

  /** Without JSON text that escaping would change, the legacy INSERT equals
      the current one with the clause placed before its final ";". */
  lemma InsertVersions(table: string, cols: seq<(string, string)>, data: seq<(string, Value)>,
                       clause: string, escape: string -> string, php: Runtime)
    requires forall i :: 0 <= i < |data| && Lookup(cols, data[i].0) == Some("json") ==>
      escape(php.jsonEncode(data[i].1)) == php.jsonEncode(data[i].1)
    ensures var current := InsertStatement(table, cols, data, escape, php);
      |current| >= 2 &&
      LegacyInsertStatement(table, cols, data, clause, escape, php) == current[..|current| - 2] + ") " + clause + ";"
  {
    LiteralListVersions(cols, data, escape, php);
    var head := "INSERT into `" + table + "` (" + Join(", ", Keys(data)) + ") VALUES ("
      + Join(", ", Literals(cols, data, escape, php, true));
    var current := InsertStatement(table, cols, data, escape, php);
    assert current == head + ");";
    assert current[..|current| - 2] == head;
  }

  /** Every write the legacy accessor refuses, the current one refuses too;
      a null value outside a JSON column is refused only by the current one,
      whose escape_string declares its parameter `string`. */
  lemma RejectionVersions(cols: seq<(string, string)>, data: seq<(string, Value)>, column: string)
    ensures SomeEscapeRejects(cols, data, false) ==> SomeEscapeRejects(cols, data, true)
    ensures Lookup(cols, column) != Some("json") ==>
      SomeEscapeRejects(cols, [(column, Null)], true) && !SomeEscapeRejects(cols, [(column, Null)], false)
  {
    SomeEscapeRejectsAt(cols, data, false);
    SomeEscapeRejectsAt(cols, data, true);
    if SomeEscapeRejects(cols, data, false) {
      var i :| 0 <= i < |data| && EscapeRejects(cols, data[i].0, data[i].1, false);
      assert EscapeRejects(cols, data[i].0, data[i].1, true);
    }
    var one: seq<(string, Value)> := [(column, Null)];
    assert one[..0] == [];
  }

  /** class DB of db/init.php. */
  class DB {
    const tablename: string
    const columns: ColumnDef
    const conn: Connection
    const php: Runtime

    constructor (tablename: string, columns: ColumnDef, conn: Connection, php: Runtime)
      ensures this.tablename == tablename && this.columns == columns
      ensures this.conn == conn && this.php == php
    {
      this.tablename := tablename;
      this.columns := columns;
      this.conn := conn;
      this.php := php;
    }

    /** escape_string($string), untyped: it hands the value to the driver's
        escape_string, whose `string` parameter takes null as "" and refuses
        an array with a TypeError (None). */
    function EscapeString(v: Value): (r: Option<string>)
      ensures r.None? <==> v.Array?
      ensures r.Some? ==> r.value == conn.escape(ToText(v))
      ensures v.Null? ==> r == Some(conn.escape(""))
    {
      if v.Array? then None else Some(conn.escape(ToText(v)))
    }

    method Fetch(colsToFetch: seq<string>, clause: string) returns (rows: Option<seq<Row>>)
      ensures rows.None? <==> conn.query(SelectStatement(tablename, colsToFetch, clause)).Failed?
      ensures rows.Some? ==>
        var raw := conn.query(SelectStatement(tablename, colsToFetch, clause)).rows;
        |rows.value| == |raw| &&
        forall i :: 0 <= i < |raw| ==> rows.value[i] == LegacyFormattedRow(columns, raw[i], php)
    {
      var parsedCols := if |colsToFetch| == 0 then "*" else Join(", ", colsToFetch);
      var query := "SELECT " + parsedCols + " FROM `" + tablename + "` " + clause + ";";
      var result := conn.query(query);
      if result.Failed? {
        return None;
      }
      var acc: seq<Row> := [];
      var i := 0;
      while i < |result.rows|
        invariant 0 <= i <= |result.rows|
        invariant |acc| == i
        invariant forall k :: 0 <= k < i ==> acc[k] == LegacyFormattedRow(columns, result.rows[k], php)
      {
        var formatted := FormatRow(result.rows[i]);
        acc := acc + [formatted];
        i := i + 1;
      }
      return Some(acc);
    }

    method Insert(data: Row, clause: string) returns (result: Issued)
      ensures result.TypeError? <==> SomeEscapeRejects(columns, data, false)
      ensures result.Issued? ==>
        result.result == conn.query(LegacyInsertStatement(tablename, columns, data, clause, conn.escape, php))
    {
      var insertInto: seq<string> := [];
      var insertValues: seq<string> := [];
      var i := 0;
      while i < |data|
        invariant 0 <= i <= |data|
        invariant insertInto == Keys(data[..i])
        invariant insertValues == Literals(columns, data[..i], conn.escape, php, true)
        invariant !SomeEscapeRejects(columns, data[..i], false)
      {
        var column := data[i].0;
        var value := data[i].1;
        var ty := Lookup(columns, column);
        if ty == Some("json") {
          value := Str(php.jsonEncode(value));
        }
        EscapeRejectsStep(columns, data, i, false);
        // both branches pass the value through escape_string
        var escaped := EscapeString(value);
        if escaped.None? {
          assert EscapeRejects(columns, data[i].0, data[i].1, false);
          return TypeError;
        }
        var temp := if ty == Some("number") then escaped.value else "'" + escaped.value + "'";
        assert temp == Literal(columns, column, data[i].1, conn.escape, php, true);
        assert data[..i + 1][..i] == data[..i];
        insertInto := insertInto + [column];
        insertValues := insertValues + [temp];
        i := i + 1;
      }
      assert data[..i] == data;
      var query := "INSERT into `" + tablename + "` (" + Join(", ", insertInto) + ") VALUES ("
        + Join(", ", insertValues) + ") " + clause + ";";
      result := Issued(conn.query(query));
    }

    method Update(data: seq<(string, Value)>, clause: string) returns (result: Issued)
      ensures result.TypeError? <==> SomeEscapeRejects(columns, data, false)
      ensures result.Issued? ==>
        result.result == conn.query(UpdateStatement(tablename, columns, data, clause, conn.escape, php))
    {
      var update := "";
      var i := 0;
      while i < |data|
        invariant 0 <= i <= |data|
        invariant UpdateProgress(columns, data, i, conn.escape, php, update, false)
      {
        var column := data[i].0;
        var value := data[i].1;
        var ty := Lookup(columns, column);
        if ty == Some("json") {
          value := Str(php.jsonEncode(value));
        }
        // both branches pass the value through escape_string
        var escaped := EscapeString(value);
        UpdateTurn(columns, data, i, conn.escape, php, update, false, escaped);
        if escaped.None? {
          return TypeError;
        }
        var temp := if ty == Some("number") then escaped.value else "'" + escaped.value + "'";
        update := update + ("`" + column + "` = " + temp) + ", ";
        i := i + 1;
      }
      assert data[..i] == data;
      update := RTrim(update, TrimChars);
      var query := "UPDATE `" + tablename + "` SET " + update + " " + clause + ";";
      result := Issued(conn.query(query));
    }

    method Delete(clause: string) returns (result: QueryResult)
      ensures result == conn.query(DeleteStatement(tablename, clause))
    {
      var query := "DELETE FROM `" + tablename + "` " + clause + ";";
      result := conn.query(query);
    }

    method FormatRow(row: Row) returns (formatted: Row)
      ensures formatted == LegacyFormattedRow(columns, row, php)
    {
      var acc: seq<(string, Value)> := [];
      var i := 0;
      while i < |columns|
        invariant 0 <= i <= |columns|
        invariant acc == Present(columns[..i], row, php)
      {
        var (columnName, ty) := columns[i];
        PresentStep(columns, row, php, i);
        if Isset(row, columnName) {
          acc := acc + [(columnName, Coerce(ty, Lookup(row, columnName).value, php))];
        }
        i := i + 1;
      }
      assert columns[..i] == columns;
      assert acc == LegacyFormattedRow(columns, row, php);
      formatted := acc;
    }
  }
}
