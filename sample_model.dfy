/** The example model of src/model/sample_model.php: an accessor bound to a
    fixed table name and column definition, with the statements and row
    formatting it yields on small inputs. */
module SampleModel {
  import opened Php
  import opened Db
  import opened Accessor

  const SampleTable: string := "sample_table_name"

  const SampleColumns: ColumnDef := [("id", "number"), ("name", "string"), ("email", "string")]

  /** `new SampleModel()`: the accessor of the fixed table and columns. */
  method NewSampleModel(conn: Connection, php: Runtime) returns (model: DB)
    ensures fresh(model)
    ensures model.tablename == SampleTable && model.columns == SampleColumns
    ensures model.conn == conn && model.php == php
  {
    model := new DB(SampleTable, SampleColumns, conn, php);
  }

  lemma SampleColumnTypes()
    ensures Lookup(SampleColumns, "id") == Some("number")
    ensures Lookup(SampleColumns, "name") == Some("string")
    ensures Lookup(SampleColumns, "email") == Some("string")
  {
    LookupAt(SampleColumns, 0);
    LookupAt(SampleColumns, 1);
    LookupAt(SampleColumns, 2);
  }

  /** Fetching every column of the rows a clause selects. */
  lemma SampleSelectAll()
    ensures SelectStatement(SampleTable, [], "WHERE id='1'") == "SELECT * FROM `" + SampleTable + "` " + "WHERE id='1'" + ";"
  {
  }

  /** Fetching two columns, without a clause. */
  lemma SampleSelectColumns()
    ensures SelectStatement(SampleTable, ["id", "email"], "") == "SELECT " + "id, email" + " FROM `" + SampleTable + "` " + "" + ";"
  {
    assert Join(", ", ["id", "email"]) == "id, email" by {
      assert ["id", "email"][..1] == ["id"];
    }
  }

  const SampleData: Row := [("id", Int(7)), ("name", Str("Ann"))]

  lemma SampleInsertColumns()
    ensures Join(", ", Keys(SampleData)) == "id, name"
  {
    assert Keys(SampleData) == ["id", "name"];
    assert ["id", "name"][..1] == ["id"];
  }

  lemma SampleInsertValues(escape: string -> string, php: Runtime)
    requires escape("7") == "7" && escape("Ann") == "Ann"
    ensures Join(", ", Literals(SampleColumns, SampleData, escape, php, false)) == "7, 'Ann'"
  {
    var data := SampleData;
    SampleColumnTypes();
    assert ToText(Int(7)) == "7";
    assert data[..1] == [("id", Int(7))];
    assert data[..1][..0] == [];
    assert Literal(SampleColumns, "id", Int(7), escape, php, false) == "7";
    assert Literal(SampleColumns, "name", Str("Ann"), escape, php, false) == "'Ann'";
    assert Literals(SampleColumns, data[..1], escape, php, false) == ["7"];
    assert Literals(SampleColumns, data, escape, php, false) == ["7", "'Ann'"];
    assert ["7", "'Ann'"][..1] == ["7"];
  }

  /** Inserting {"id": 7, "name": "Ann"}: the number 7 unquoted, 'Ann' quoted. */
  lemma SampleInsert(escape: string -> string, php: Runtime)
    requires escape("7") == "7" && escape("Ann") == "Ann"
    ensures InsertStatement(SampleTable, SampleColumns, SampleData, escape, php)
      == "INSERT into `" + SampleTable + "` (" + "id, name" + ") VALUES (" + "7, 'Ann'" + ");"
  {
    SampleInsertColumns();
    SampleInsertValues(escape, php);
  }

  const UpdateData: Row := [("name", Str("Sarah Jane"))]

  lemma SampleSetList(escape: string -> string, php: Runtime)
    requires escape("Sarah Jane") == "Sarah Jane"
    ensures SetList(SampleColumns, UpdateData, escape, php) == "`name` = " + "'" + "Sarah Jane" + "'"
  {
    var a := "`name` = " + "'" + "Sarah Jane" + "'";
    assert Assignment(SampleColumns, "name", Str("Sarah Jane"), escape, php) == a by {
      SampleColumnTypes();
    }
    assert Terminated(", ", Assignments(SampleColumns, UpdateData, escape, php)) == a + ", " by {
      OneAssignmentTerminated(SampleColumns, "name", Str("Sarah Jane"), escape, php);
    }
    assert RTrim(a + ", ", TrimChars) == a by {
      RTrimIgnoresTail(a, ", ", TrimChars);
    }
  }

  /** Updating one column under a clause: the rtrim removes only the final separator. */
  lemma SampleUpdate(escape: string -> string, php: Runtime)
    requires escape("Sarah Jane") == "Sarah Jane"
    ensures UpdateStatement(SampleTable, SampleColumns, UpdateData, "WHERE id='21'", escape, php)
      == "UPDATE `" + SampleTable + "` SET " + "`name` = " + "'" + "Sarah Jane" + "'" + " " + "WHERE id='21'" + ";"
  {
    SampleSetList(escape, php);
  }

  const FetchedRow: Row := [("id", Str("7")), ("email", Null), ("extra", Str("x"))]

  lemma SampleDeclared(php: Runtime)
    requires php.intval(Str("7")) == 7
    ensures Present(SampleColumns, FetchedRow, php) == [("id", Int(7))]
  {
    var row := FetchedRow;
    LookupAt(row, 0);
    LookupAt(row, 1);
    assert Lookup(row, "name") == None by {
      assert "name" !in Keys(row);
    }
    SampleColumnTypes();
    assert SampleColumns[..2] == [("id", "number"), ("name", "string")];
    assert SampleColumns[..2][..1] == [("id", "number")];
    assert SampleColumns[..2][..1][..0] == [];
    assert Isset(row, "id") && !Isset(row, "name") && !Isset(row, "email");
    assert Present(SampleColumns[..1], row, php) == [("id", Int(7))];
    assert Present(SampleColumns[..2], row, php) == [("id", Int(7))];
  }

  lemma SampleRest()
    ensures DiffKey(FetchedRow, [("id", Int(7))]) == [("email", Null), ("extra", Str("x"))]
  {
    var row := FetchedRow;
    assert row[..2] == [("id", Str("7")), ("email", Null)];
    assert row[..2][..1] == [("id", Str("7"))];
    assert row[..2][..1][..0] == [];
    assert Keys([("id", Int(7))]) == ["id"];
    assert DiffKey(row[..1], [("id", Int(7))]) == [];
    assert DiffKey(row[..2], [("id", Int(7))]) == [("email", Null)];
  }

  /** Formatting a fetched row: id goes through intval, the missing name is
      not introduced, the null email and the undeclared column are kept. */
  lemma SampleFormat(php: Runtime)
    requires php.intval(Str("7")) == 7
    ensures FormattedRow(SampleColumns, FetchedRow, php) == [("id", Int(7)), ("email", Null), ("extra", Str("x"))]
  {
    SampleDeclared(php);
    SampleRest();
  }
}
