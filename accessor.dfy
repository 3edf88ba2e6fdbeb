/** class DB of src/db/init.php: the accessor bound to one table, whose
    methods build the statements of module Db, issue them on the connection
    and format the rows they fetch. */
module Accessor {
  import opened Php
  import opened Db

  /** class DB of src/db/init.php. conn stands for the mysqli connection
      (its escape_string and its query), php for the library functions. */
  class DB {
    const tablename: string
    const columns: ColumnDef
    const conn: Connection
    const php: Runtime

    constructor (tablename: string, columns: ColumnDef, conn: Connection, php: Runtime)
      ensures this.tablename == tablename && this.columns == columns
      ensures this.conn == conn && this.php == php
    {
      this.tablename := tablename;
      this.columns := columns;
      this.conn := conn;
      this.php := php;
    }

    /** escape_string(string $string): its declared parameter type refuses
        null and arrays with a TypeError (None); any other value is converted
        to its string form and escaped by the driver's primitive. */
    function EscapeString(v: Value): (r: Option<string>)
      ensures r.None? <==> v.Null? || v.Array?
      ensures r.Some? ==> r.value == conn.escape(ToText(v))
    {
      if v.Null? || v.Array? then None else Some(conn.escape(ToText(v)))
    }

    method Fetch(colsToFetch: seq<string>, clause: string) returns (rows: Option<seq<Row>>)
      ensures rows.None? <==> conn.query(SelectStatement(tablename, colsToFetch, clause)).Failed?
      ensures rows.Some? ==>
        var raw := conn.query(SelectStatement(tablename, colsToFetch, clause)).rows;
        |rows.value| == |raw| &&
        forall i :: 0 <= i < |raw| ==> rows.value[i] == FormattedRow(columns, raw[i], php)
    {
      var parsedCols := if |colsToFetch| == 0 then "*" else Join(", ", colsToFetch);
      var query := "SELECT " + parsedCols + " FROM `" + tablename + "` " + clause + ";";
      var result := conn.query(query);
      if result.Failed? {
        return None;
      }
      var acc: seq<Row> := [];
      var i := 0;
      while i < |result.rows|
        invariant 0 <= i <= |result.rows|
        invariant |acc| == i
        invariant forall k :: 0 <= k < i ==> acc[k] == FormattedRow(columns, result.rows[k], php)
      {
        var formatted := FormatRow(result.rows[i]);
        acc := acc + [formatted];
        i := i + 1;
      }
      return Some(acc);
    }

    method Insert(data: Row) returns (result: Issued)
      ensures result.TypeError? <==> SomeEscapeRejects(columns, data, true)
      ensures result.Issued? ==> result.result == conn.query(InsertStatement(tablename, columns, data, conn.escape, php))
    {
      var insertInto: seq<string> := [];
      var insertValues: seq<string> := [];
      var i := 0;
      while i < |data|
        invariant 0 <= i <= |data|
        invariant insertInto == Keys(data[..i])
        invariant insertValues == Literals(columns, data[..i], conn.escape, php, false)
        invariant !SomeEscapeRejects(columns, data[..i], true)
      {
        var (column, value) := data[i];
        var ty := Lookup(columns, column);
        EscapeRejectsStep(columns, data, i, true);
        var temp: string;
        if ty == Some("json") {
          var text := php.jsonEncode(value);
          temp := "'" + text + "'";
        } else if ty == Some("number") {
          var escaped := EscapeString(value);
          if escaped.None? {
            assert EscapeRejects(columns, data[i].0, data[i].1, true);
            return TypeError;
          }
          temp := escaped.value;
        } else {
          var escaped := EscapeString(value);
          if escaped.None? {
            assert EscapeRejects(columns, data[i].0, data[i].1, true);
            return TypeError;
          }
          temp := "'" + escaped.value + "'";
        }
        assert data[..i + 1][..i] == data[..i];
        insertInto := insertInto + [column];
        insertValues := insertValues + [temp];
        i := i + 1;
      }
      assert data[..i] == data;
      var query := "INSERT into `" + tablename + "` (" + Join(", ", insertInto) + ") VALUES ("
        + Join(", ", insertValues) + ");";
      result := Issued(conn.query(query));
    }

    method Update(data: seq<(string, Value)>, clause: string) returns (result: Issued)
      ensures result.TypeError? <==> SomeEscapeRejects(columns, data, true)
      ensures result.Issued? ==>
        result.result == conn.query(UpdateStatement(tablename, columns, data, clause, conn.escape, php))
    {
      var update := "";
      var i := 0;
      while i < |data|
        invariant 0 <= i <= |data|
        invariant UpdateProgress(columns, data, i, conn.escape, php, update, true)
      {
        var column := data[i].0;
        var value := data[i].1;
        var ty := Lookup(columns, column);
        if ty == Some("json") {
          value := Str(php.jsonEncode(value));
        }
        // both branches pass the value through escape_string
        var escaped := EscapeString(value);
        UpdateTurn(columns, data, i, conn.escape, php, update, true, escaped);
        if escaped.None? {
          return TypeError;
        }
        var temp := if ty == Some("number") then escaped.value else "'" + escaped.value + "'";
        update := update + ("`" + column + "` = " + temp) + ", ";
        i := i + 1;
      }
      assert data[..i] == data;
      update := RTrim(update, TrimChars);
      var query := "UPDATE `" + tablename + "` SET " + update + " " + clause + ";";
      result := Issued(conn.query(query));
    }

    method Delete(clause: string) returns (result: QueryResult)
      ensures result == conn.query(DeleteStatement(tablename, clause))
    {
      var query := "DELETE FROM `" + tablename + "` " + clause + ";";
      result := conn.query(query);
    }

    method FormatRow(row: Row) returns (formatted: Row)
      ensures formatted == FormattedRow(columns, row, php)
    {
      var acc: seq<(string, Value)> := [];
      var i := 0;
      while i < |columns|
        invariant 0 <= i <= |columns|
        invariant acc == Present(columns[..i], row, php)
      {
        var (columnName, ty) := columns[i];
        PresentStep(columns, row, php, i);
        if Isset(row, columnName) {
          acc := acc + [(columnName, Coerce(ty, Lookup(row, columnName).value, php))];
        }
        i := i + 1;
      }
      assert columns[..i] == columns;
      var declared := acc;
      var rest := DiffKey(row, declared);
      var j := 0;
      while j < |rest|
        invariant 0 <= j <= |rest|
        invariant acc == declared + rest[..j]
      {
        var columnName := rest[j].0;
        RestEntry(row, declared, j);
        acc := acc + [(columnName, Lookup(row, columnName).value)];
        assert rest[..j + 1] == rest[..j] + [rest[j]];
        j := j + 1;
      }
      assert rest[..j] == rest;
      assert acc == FormattedRow(columns, row, php);
      formatted := acc;
    }
  }
}
