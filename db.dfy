/** What the table accessor of src/db/init.php computes: SQL text built from
    a table name, an ordered column-type definition and caller data, and the
    row formatter that coerces fetched rows by column type. The statement
    builders and the row-formatting functions that db/init.php shares are
    defined here once; the accessor class itself is in module Accessor. */
module Db {
  import opened Php

  /** A fetched row, or caller data: column name to value, in order. */
  type Row = Assoc<Value>

  /** A column definition: column name to type tag ("number", "json" or anything else). */
  type ColumnDef = Assoc<string>

  /** What `mysqli::query` returns: false, or a result set (a statement
      without one, for which mysqli returns true, gives an empty set). */
  datatype QueryResult = Failed | Succeeded(rows: seq<Row>)

  /** The store connection: the driver's escaping primitive and the query oracle. */
  datatype Connection = Connection(escape: string -> string, query: string -> QueryResult)

  /** How insert and update end: the result of the statement they issue, or
      the TypeError escape_string raises, while the statement is still being
      built, for a value it does not accept. */
  datatype Issued = Issued(result: QueryResult) | TypeError

  /** The characters `rtrim($update, ", ")` strips. */
  const TrimChars: set<char> := {',', ' '}

  /** Whether escape_string refuses the value written to `column`. A JSON
      column hands it json_encode text, a string, so only other columns can
      raise. An array is never taken as a string; null is refused only by a
      parameter declared `string` (nullRejected), and otherwise becomes "". */
  predicate EscapeRejects(cols: seq<(string, string)>, column: string, v: Value, nullRejected: bool) {
    Lookup(cols, column) != Some("json") && (v.Array? || (nullRejected && v.Null?))
  }

  /** Some data entry's value is refused by escape_string. */
  predicate SomeEscapeRejects(cols: seq<(string, string)>, data: seq<(string, Value)>, nullRejected: bool) {
    data != [] &&
    (SomeEscapeRejects(cols, data[..|data| - 1], nullRejected) ||
     EscapeRejects(cols, data[|data| - 1].0, data[|data| - 1].1, nullRejected))
  }

  /** escape_string refuses some entry exactly when there is a refused entry. */
  lemma {:induction false} SomeEscapeRejectsAt(cols: seq<(string, string)>, data: seq<(string, Value)>,
                                               nullRejected: bool)
    ensures SomeEscapeRejects(cols, data, nullRejected) <==>
      exists i :: 0 <= i < |data| && EscapeRejects(cols, data[i].0, data[i].1, nullRejected)
  {
    if data != [] {
      var n := |data| - 1;
      SomeEscapeRejectsAt(cols, data[..n], nullRejected);
      if exists i :: 0 <= i < |data| && EscapeRejects(cols, data[i].0, data[i].1, nullRejected) {
        var i :| 0 <= i < |data| && EscapeRejects(cols, data[i].0, data[i].1, nullRejected);
        if i < n {
          assert data[..n][i] == data[i];
        }
      }
      if SomeEscapeRejects(cols, data[..n], nullRejected) {
        var i :| 0 <= i < n && EscapeRejects(cols, data[..n][i].0, data[..n][i].1, nullRejected);
        assert data[..n][i] == data[i];
      }
    }
  }

  /** One more entry accepted by escape_string keeps the prefix free of refusals;
      a refused entry makes the whole data refused. */
  lemma EscapeRejectsStep(cols: seq<(string, string)>, data: seq<(string, Value)>, i: nat, nullRejected: bool)
    requires i < |data|
    ensures SomeEscapeRejects(cols, data[..i + 1], nullRejected) <==>
      SomeEscapeRejects(cols, data[..i], nullRejected) || EscapeRejects(cols, data[i].0, data[i].1, nullRejected)
    ensures EscapeRejects(cols, data[i].0, data[i].1, nullRejected) ==> SomeEscapeRejects(cols, data, nullRejected)
  {
    assert data[..i + 1][..i] == data[..i];
    if EscapeRejects(cols, data[i].0, data[i].1, nullRejected) {
      SomeEscapeRejectsAt(cols, data, nullRejected);
    }
  }

  // ---------------------------------------------------------------------------
  // Statement text
  // ---------------------------------------------------------------------------

  /** The SELECT statement `fetch` issues. */
  function SelectStatement(table: string, names: seq<string>, clause: string): string {
    var parsedCols := if |names| == 0 then "*" else Join(", ", names);
    "SELECT " + parsedCols + " FROM `" + table + "` " + clause + ";"
  }

  /** A SELECT names the table between backquotes and ends with the caller's
      clause and ";"; no column list means every column. */
  lemma SelectStatementShape(table: string, names: seq<string>, clause: string)
    ensures var r := SelectStatement(table, names, clause);
      "SELECT " <= r && |r| > |clause| && r[|r| - |clause| - 1..] == clause + ";"
    ensures names == [] ==> "SELECT * FROM `" + table + "` " <= SelectStatement(table, names, clause)
  {
    var parsedCols := if |names| == 0 then "*" else Join(", ", names);
    var head := "SELECT " + parsedCols + " FROM `" + table + "` ";
    ConcatEnds("SELECT ", parsedCols + " FROM `" + table + "` ", clause + ";");
    ConcatEnds(head, "", clause + ";");
  }

  /** The SQL literal for one value of `column`, by the column's declared type.
      A column missing from the definition looks up as null and is treated as
      a string. escapeJson tells whether JSON text goes through the escaping
      primitive (update, and insert in db/init.php) or not (insert in
      src/db/init.php). */
  function Literal(cols: seq<(string, string)>, column: string, v: Value,
                   escape: string -> string, php: Runtime, escapeJson: bool): string
  {
    var ty := Lookup(cols, column);
    if ty == Some("json") then
      var text := php.jsonEncode(v);
      "'" + (if escapeJson then escape(text) else text) + "'"
    else if ty == Some("number") then escape(ToText(v))
    else "'" + escape(ToText(v)) + "'"
  }

  /** One literal per data entry, in data order. */
  function Literals(cols: seq<(string, string)>, data: seq<(string, Value)>,
                    escape: string -> string, php: Runtime, escapeJson: bool): seq<string>
  {
    if data == [] then []
    else
      var n := |data| - 1;
      Literals(cols, data[..n], escape, php, escapeJson)
        + [Literal(cols, data[n].0, data[n].1, escape, php, escapeJson)]
  }

  /** The value list is aligned with the data: one literal per entry, at the entry's position. */
  lemma {:induction false} LiteralsAligned(cols: seq<(string, string)>, data: seq<(string, Value)>,
                                           escape: string -> string, php: Runtime, escapeJson: bool)
    ensures |Literals(cols, data, escape, php, escapeJson)| == |data|
    ensures forall i :: 0 <= i < |data| ==>
      Literals(cols, data, escape, php, escapeJson)[i] == Literal(cols, data[i].0, data[i].1, escape, php, escapeJson)
  {
    if data != [] {
      var n := |data| - 1;
      LiteralsAligned(cols, data[..n], escape, php, escapeJson);
    }
  }

  /** The INSERT statement `insert` issues in src/db/init.php. */
  function InsertStatement(table: string, cols: seq<(string, string)>, data: seq<(string, Value)>,
                           escape: string -> string, php: Runtime): string
  {
    "INSERT into `" + table + "` (" + Join(", ", Keys(data)) + ") VALUES ("
      + Join(", ", Literals(cols, data, escape, php, false)) + ");"
  }

  /** An INSERT lists the data's keys, in order, before its VALUES and ends
      with ");": no clause follows. */
  lemma InsertStatementShape(table: string, cols: seq<(string, string)>, data: seq<(string, Value)>,
                             escape: string -> string, php: Runtime)
    ensures var r := InsertStatement(table, cols, data, escape, php);
      "INSERT into `" + table + "` (" + Join(", ", Keys(data)) + ") VALUES (" <= r &&
      |r| >= 2 && r[|r| - 2..] == ");"
  {
    var head := "INSERT into `" + table + "` (" + Join(", ", Keys(data)) + ") VALUES (";
    ConcatEnds(head, Join(", ", Literals(cols, data, escape, php, false)), ");");
  }

  /** The "`column` = literal" entry of an UPDATE for one data entry. */
  function Assignment(cols: seq<(string, string)>, column: string, v: Value,
                      escape: string -> string, php: Runtime): string
  {
    "`" + column + "` = " + Literal(cols, column, v, escape, php, true)
  }

  /** The assignments of an UPDATE, in data order. */
  function Assignments(cols: seq<(string, string)>, data: seq<(string, Value)>,
                       escape: string -> string, php: Runtime): seq<string>
  {
    if data == [] then []
    else
      var n := |data| - 1;
      Assignments(cols, data[..n], escape, php) + [Assignment(cols, data[n].0, data[n].1, escape, php)]
  }

  lemma {:induction false} AssignmentsAligned(cols: seq<(string, string)>, data: seq<(string, Value)>,
                                              escape: string -> string, php: Runtime)
    ensures |Assignments(cols, data, escape, php)| == |data|
    ensures forall i :: 0 <= i < |data| ==>
      Assignments(cols, data, escape, php)[i] == Assignment(cols, data[i].0, data[i].1, escape, php)
  {
    if data != [] {
      var n := |data| - 1;
      var prev := Assignments(cols, data[..n], escape, php);
      var last := Assignment(cols, data[n].0, data[n].1, escape, php);
      AssignmentsAligned(cols, data[..n], escape, php);
      assert Assignments(cols, data, escape, php) == prev + [last];
      forall i | 0 <= i < |data|
        ensures (prev + [last])[i] == Assignment(cols, data[i].0, data[i].1, escape, php)
      {
        if i < n {
          assert data[..n][i] == data[i];
        }
      }
    }
  }

  /** One more iteration of update's loop appends one assignment and ", ". */
  lemma AssignmentsStep(cols: seq<(string, string)>, data: seq<(string, Value)>, i: nat,
                        escape: string -> string, php: Runtime)
    requires i < |data|
    ensures Terminated(", ", Assignments(cols, data[..i + 1], escape, php))
      == Terminated(", ", Assignments(cols, data[..i], escape, php))
         + Assignment(cols, data[i].0, data[i].1, escape, php) + ", "
  {
    assert data[..i + 1][..i] == data[..i];
    var a := Assignments(cols, data[..i], escape, php);
    var x := Assignment(cols, data[i].0, data[i].1, escape, php);
    assert (a + [x])[..|a|] == a;
  }

  /** update's loop body appends the next entry's assignment and ", ". */
  lemma UpdateLoopStep(cols: seq<(string, string)>, data: seq<(string, Value)>, i: nat,
                       escape: string -> string, php: Runtime, update: string, temp: string)
    requires i < |data|
    requires update == Terminated(", ", Assignments(cols, data[..i], escape, php))
    requires temp == Literal(cols, data[i].0, data[i].1, escape, php, true)
    ensures update + ("`" + data[i].0 + "` = " + temp) + ", "
      == Terminated(", ", Assignments(cols, data[..i + 1], escape, php))
  {
    AssignmentsStep(cols, data, i, escape, php);
  }

  /** The state of the `update` loop after the first i entries: the SET text
      built so far, and no value refused by escape_string yet. */
  predicate UpdateProgress(cols: seq<(string, string)>, data: seq<(string, Value)>, i: nat,
                           escape: string -> string, php: Runtime, update: string, nullRejected: bool)
    requires i <= |data|
  {
    update == Terminated(", ", Assignments(cols, data[..i], escape, php)) &&
    !SomeEscapeRejects(cols, data[..i], nullRejected)
  }

  /** One accepted entry takes the `update` loop to the next state. */
  lemma UpdateProgressStep(cols: seq<(string, string)>, data: seq<(string, Value)>, i: nat,
                           escape: string -> string, php: Runtime, update: string, temp: string,
                           nullRejected: bool)
    requires i < |data|
    requires UpdateProgress(cols, data, i, escape, php, update, nullRejected)
    requires !EscapeRejects(cols, data[i].0, data[i].1, nullRejected)
    requires temp == Literal(cols, data[i].0, data[i].1, escape, php, true)
    ensures UpdateProgress(cols, data, i + 1, escape, php, update + ("`" + data[i].0 + "` = " + temp) + ", ", nullRejected)
  {
    EscapeRejectsStep(cols, data, i, nullRejected);
    UpdateLoopStep(cols, data, i, escape, php, update, temp);
  }

  /** One turn of the `update` loop: escape_string's answer for entry i
      (given the json_encode text in a JSON column) either refuses the whole
      data or extends the SET text by that entry's assignment. */
  lemma UpdateTurn(cols: seq<(string, string)>, data: seq<(string, Value)>, i: nat,
                   escape: string -> string, php: Runtime, update: string, nullRejected: bool,
                   escaped: Option<string>)
    requires i < |data|
    requires UpdateProgress(cols, data, i, escape, php, update, nullRejected)
    requires var x := if Lookup(cols, data[i].0) == Some("json") then Str(php.jsonEncode(data[i].1)) else data[i].1;
      (escaped.None? <==> x.Array? || (nullRejected && x.Null?)) &&
      (escaped.Some? ==> escaped.value == escape(ToText(x)))
    ensures escaped.None? ==> SomeEscapeRejects(cols, data, nullRejected)
    ensures escaped.Some? ==>
      var temp := if Lookup(cols, data[i].0) == Some("number") then escaped.value else "'" + escaped.value + "'";
      UpdateProgress(cols, data, i + 1, escape, php, update + ("`" + data[i].0 + "` = " + temp) + ", ", nullRejected)
  {
    EscapeRejectsStep(cols, data, i, nullRejected);
    if escaped.Some? {
      var temp := if Lookup(cols, data[i].0) == Some("number") then escaped.value else "'" + escaped.value + "'";
      assert temp == Literal(cols, data[i].0, data[i].1, escape, php, true);
      UpdateProgressStep(cols, data, i, escape, php, update, temp, nullRejected);
    }
  }

  /** The SET list: each assignment followed by ", ", then every trailing ',' and ' ' removed. */
  function SetList(cols: seq<(string, string)>, data: seq<(string, Value)>,
                   escape: string -> string, php: Runtime): string
  {
    RTrim(Terminated(", ", Assignments(cols, data, escape, php)), TrimChars)
  }

  /** The UPDATE statement `update` issues (the same in both versions). */
  function UpdateStatement(table: string, cols: seq<(string, string)>, data: seq<(string, Value)>,
                           clause: string, escape: string -> string, php: Runtime): string
  {
    "UPDATE `" + table + "` SET " + SetList(cols, data, escape, php) + " " + clause + ";"
  }

  /** An UPDATE names the table between backquotes and ends with a space,
      the caller's clause and ";". */
  lemma UpdateStatementShape(table: string, cols: seq<(string, string)>, data: seq<(string, Value)>,
                             clause: string, escape: string -> string, php: Runtime)
    ensures var r := UpdateStatement(table, cols, data, clause, escape, php);
      "UPDATE `" + table + "` SET " <= r &&
      |r| > |clause| + 1 && r[|r| - |clause| - 2..] == " " + clause + ";"
  {
    var head := "UPDATE `" + table + "` SET ";
    var list := SetList(cols, data, escape, php);
    var r := UpdateStatement(table, cols, data, clause, escape, php);
    ConcatEnds5(head, list, " ", clause, ";");
    assert |r| - |clause| - 2 == |head| + |list|;
  }

  /** The DELETE statement `delete` issues (the same in both versions). */
  function DeleteStatement(table: string, clause: string): string {
    "DELETE FROM `" + table + "` " + clause + ";"
  }

  /** A DELETE names the table between backquotes and ends with the caller's
      clause and ";". */
  lemma DeleteStatementShape(table: string, clause: string)
    ensures var r := DeleteStatement(table, clause);
      "DELETE FROM `" + table + "` " <= r && |r| > |clause| && r[|r| - |clause| - 1..] == clause + ";"
  {
    ConcatEnds("DELETE FROM `" + table + "` ", "", clause + ";");
  }

  // ---------------------------------------------------------------------------
  // Properties of the statement text
  // ---------------------------------------------------------------------------

  /** Every literal of a column not typed "number" (undeclared ones included) is quoted. */
  lemma QuotedUnlessNumber(cols: seq<(string, string)>, column: string, v: Value,
                           escape: string -> string, php: Runtime, escapeJson: bool)
    requires Lookup(cols, column) != Some("number")
    ensures var lit := Literal(cols, column, v, escape, php, escapeJson);
      |lit| >= 2 && lit[0] == '\'' && lit[|lit| - 1] == '\''
  {
  }

  /** The two JSON encodings differ only in whether the JSON text is escaped;
      every other column gets the same literal. */
  lemma LiteralVersions(cols: seq<(string, string)>, column: string, v: Value,
                        escape: string -> string, php: Runtime)
    ensures Lookup(cols, column) != Some("json") ==>
      Literal(cols, column, v, escape, php, false) == Literal(cols, column, v, escape, php, true)
    ensures Lookup(cols, column) == Some("json") ==>
      Literal(cols, column, v, escape, php, false) == "'" + php.jsonEncode(v) + "'" &&
      Literal(cols, column, v, escape, php, true) == "'" + escape(php.jsonEncode(v)) + "'"
  {
  }

  /** The two value lists coincide when escaping leaves every JSON text unchanged. */
  lemma LiteralListVersions(cols: seq<(string, string)>, data: seq<(string, Value)>,
                            escape: string -> string, php: Runtime)
    ensures (forall i :: 0 <= i < |data| && Lookup(cols, data[i].0) == Some("json") ==>
               escape(php.jsonEncode(data[i].1)) == php.jsonEncode(data[i].1)) ==>
      Literals(cols, data, escape, php, false) == Literals(cols, data, escape, php, true)
  {
    if forall i :: 0 <= i < |data| && Lookup(cols, data[i].0) == Some("json") ==>
         escape(php.jsonEncode(data[i].1)) == php.jsonEncode(data[i].1)
    {
      LiteralsAligned(cols, data, escape, php, false);
      LiteralsAligned(cols, data, escape, php, true);
      forall i | 0 <= i < |data|
        ensures Literals(cols, data, escape, php, false)[i] == Literals(cols, data, escape, php, true)[i]
      {
        LiteralVersions(cols, data[i].0, data[i].1, escape, php);
      }
    }
  }

  /** When the last assignment does not end with a trimmed character, the
      SET list is exactly the assignments joined by ", ". */
  lemma {:induction false} SetListIsJoin(cols: seq<(string, string)>, data: seq<(string, Value)>,
                                         escape: string -> string, php: Runtime)
    requires data != []
    requires var n := |data| - 1;
      var lit := Literal(cols, data[n].0, data[n].1, escape, php, true);
      lit != [] && lit[|lit| - 1] !in TrimChars
    ensures SetList(cols, data, escape, php) == Join(", ", Assignments(cols, data, escape, php))
  {
    var a := Assignments(cols, data, escape, php);
    var j := Join(", ", a);
    assert j != [] && j[|j| - 1] !in TrimChars by {
      var n := |data| - 1;
      var lit := Literal(cols, data[n].0, data[n].1, escape, php, true);
      AssignmentsAligned(cols, data, escape, php);
      assert a[|a| - 1] == "`" + data[n].0 + "` = " + lit;
      JoinEnd(", ", a);
    }
    TerminatedIsJoinThenSep(", ", a);
    RTrimTrailing(j, ", ", TrimChars);
  }

  /** A SET list whose last column is not typed "number" loses nothing to rtrim. */
  lemma SetListQuotedTail(cols: seq<(string, string)>, data: seq<(string, Value)>,
                          escape: string -> string, php: Runtime)
    requires data != [] && Lookup(cols, data[|data| - 1].0) != Some("number")
    ensures SetList(cols, data, escape, php) == Join(", ", Assignments(cols, data, escape, php))
  {
    var n := |data| - 1;
    QuotedUnlessNumber(cols, data[n].0, data[n].1, escape, php, true);
    SetListIsJoin(cols, data, escape, php);
  }

  /** Nor does one ending with an integer in a "number" column, when the
      escaping primitive leaves the integer's digits alone. */
  lemma SetListIntegerTail(cols: seq<(string, string)>, data: seq<(string, Value)>,
                           escape: string -> string, php: Runtime)
    requires data != [] && data[|data| - 1].1.Int?
    requires escape(ToText(data[|data| - 1].1)) == ToText(data[|data| - 1].1)
    ensures SetList(cols, data, escape, php) == Join(", ", Assignments(cols, data, escape, php))
  {
    var n := |data| - 1;
    IntTextEndsWithDigit(data[n].1.i);
    if Lookup(cols, data[n].0) != Some("number") {
      QuotedUnlessNumber(cols, data[n].0, data[n].1, escape, php, true);
    }
    SetListIsJoin(cols, data, escape, php);
  }

  /** A one-entry update's list before the rtrim: its assignment and ", ". */
  lemma OneAssignmentTerminated(cols: seq<(string, string)>, column: string, v: Value,
                                escape: string -> string, php: Runtime)
    ensures Terminated(", ", Assignments(cols, [(column, v)], escape, php))
      == Assignment(cols, column, v, escape, php) + ", "
  {
    var data := [(column, v)];
    assert data[..0] == [];
    assert Assignments(cols, data, escape, php) == [Assignment(cols, column, v, escape, php)];
    TerminatedOne(", ", Assignment(cols, column, v, escape, php));
  }

  /** rtrim eats the tail of an unquoted value: a "number" column given the
      string s + ", " is written as s. */
  lemma SetListEatsNumberTail(cols: seq<(string, string)>, column: string, s: string,
                              escape: string -> string, php: Runtime)
    requires Lookup(cols, column) == Some("number")
    requires s != [] && s[|s| - 1] !in TrimChars
    requires escape(s + ", ") == s + ", "
    ensures SetList(cols, [(column, Str(s + ", "))], escape, php) == "`" + column + "` = " + s
  {
    var head := "`" + column + "` = " + s;
    NumberTailAssignment(cols, column, s, escape, php);
    assert head[|head| - 1] == s[|s| - 1];
    TrimSeparators(head);
  }

  /** rtrim removes two separators after a text that ends with a kept character. */
  lemma TrimSeparators(head: string)
    requires head != [] && head[|head| - 1] !in TrimChars
    ensures RTrim(head + ", , ", TrimChars) == head
  {
    var t := ", , ";
    assert t[0] in TrimChars && t[1] in TrimChars && t[2] in TrimChars && t[3] in TrimChars;
    RTrimTrailing(head, t, TrimChars);
  }

  /** The assignment a "number" column gets for the string s + ", ", and its separator. */
  lemma NumberTailAssignment(cols: seq<(string, string)>, column: string, s: string,
                             escape: string -> string, php: Runtime)
    requires Lookup(cols, column) == Some("number")
    requires escape(s + ", ") == s + ", "
    ensures Terminated(", ", Assignments(cols, [(column, Str(s + ", "))], escape, php))
      == "`" + column + "` = " + s + ", , "
  {
    OneAssignmentTerminated(cols, column, Str(s + ", "), escape, php);
    assert Assignment(cols, column, Str(s + ", "), escape, php) == "`" + column + "` = " + s + ", ";
  }

  /** Empty data gives an empty SET list; an empty clause leaves UPDATE and
      DELETE without a filter, so they address every row of the table. */
  lemma EmptyDataAndClause(table: string, cols: seq<(string, string)>,
                           escape: string -> string, php: Runtime)
    ensures SetList(cols, [], escape, php) == ""
    ensures UpdateStatement(table, cols, [], "", escape, php) == "UPDATE `" + table + "` SET  ;"
    ensures DeleteStatement(table, "") == "DELETE FROM `" + table + "` ;"
  {
  }

  // ---------------------------------------------------------------------------
  // Row formatting
  // ---------------------------------------------------------------------------

  /** The value formatRow stores for a set cell of a column typed ty. */
  function Coerce(ty: string, v: Value, php: Runtime): Value {
    if ty == "number" then Int(php.intval(v))
    else if ty == "json" then php.jsonDecode(v)
    else v
  }

  /** The names among `names` that are set in row, in the order of `names`. */
  function SetColumns(names: seq<string>, row: seq<(string, Value)>): seq<string> {
    if names == [] then []
    else
      var n := |names| - 1;
      SetColumns(names[..n], row) + (if Isset(row, names[n]) then [names[n]] else [])
  }

  lemma {:induction false} SetColumnsMember(names: seq<string>, row: seq<(string, Value)>, k: string)
    ensures k in SetColumns(names, row) <==> k in names && Isset(row, k)
  {
    if names != [] {
      var n := |names| - 1;
      assert names == names[..n] + [names[n]];
      SetColumnsMember(names[..n], row, k);
    }
  }

  /** The names among `names` that are not in `excluded`, in the order of `names`. */
  function Outside(names: seq<string>, excluded: seq<string>): seq<string> {
    if names == [] then []
    else
      var n := |names| - 1;
      Outside(names[..n], excluded) + (if names[n] !in excluded then [names[n]] else [])
  }

  lemma {:induction false} OutsideMember(names: seq<string>, excluded: seq<string>, k: string)
    ensures k in Outside(names, excluded) <==> k in names && k !in excluded
  {
    if names != [] {
      var n := |names| - 1;
      assert names == names[..n] + [names[n]];
      OutsideMember(names[..n], excluded, k);
    }
  }

  /** formatRow's first loop: the declared columns that are set in the row,
      coerced by type, in definition order. */
  function Present(cols: seq<(string, string)>, row: seq<(string, Value)>, php: Runtime)
    : seq<(string, Value)>
  {
    if cols == [] then []
    else
      var n := |cols| - 1;
      var prev := Present(cols[..n], row, php);
      if Isset(row, cols[n].0) then prev + [(cols[n].0, Coerce(cols[n].1, Lookup(row, cols[n].0).value, php))]
      else prev
  }

  /** A declared column is in the first loop's result exactly when it is set,
      and then holds its coerced value. */
  lemma {:induction false} PresentLookup(cols: seq<(string, string)>, row: seq<(string, Value)>,
                                         php: Runtime, k: string)
    ensures Lookup(Present(cols, row, php), k) ==
      if Lookup(cols, k).Some? && Isset(row, k)
      then Some(Coerce(Lookup(cols, k).value, Lookup(row, k).value, php))
      else None
  {
    if cols != [] {
      var n := |cols| - 1;
      var prev := Present(cols[..n], row, php);
      PresentLookup(cols[..n], row, php, k);
      if Isset(row, cols[n].0) {
        LookupSnoc(prev, (cols[n].0, Coerce(cols[n].1, Lookup(row, cols[n].0).value, php)), k);
      }
    }
  }

  lemma {:induction false} PresentKeys(cols: seq<(string, string)>, row: seq<(string, Value)>, php: Runtime)
    ensures Keys(Present(cols, row, php)) == SetColumns(Keys(cols), row)
  {
    if cols != [] {
      var n := |cols| - 1;
      var prev := Present(cols[..n], row, php);
      PresentKeys(cols[..n], row, php);
      assert Keys(cols)[..n] == Keys(cols[..n]);
      if Isset(row, cols[n].0) {
        var e := (cols[n].0, Coerce(cols[n].1, Lookup(row, cols[n].0).value, php));
        assert (prev + [e])[..|prev|] == prev;
      }
    }
  }

  lemma {:induction false} PresentUnique(cols: seq<(string, string)>, row: seq<(string, Value)>, php: Runtime)
    requires UniqueKeys(cols)
    ensures UniqueKeys(Present(cols, row, php))
  {
    if cols != [] {
      var n := |cols| - 1;
      var c := cols[n].0;
      var prev := Present(cols[..n], row, php);
      assert UniqueKeys(cols[..n]);
      PresentUnique(cols[..n], row, php);
      if Isset(row, c) {
        var e := (c, Coerce(cols[n].1, Lookup(row, c).value, php));
        PresentKeys(cols[..n], row, php);
        SetColumnsMember(Keys(cols[..n]), row, c);
        assert c !in Keys(cols[..n]) by {
          forall i | 0 <= i < n ensures Keys(cols[..n])[i] != c {
            assert cols[i].0 != cols[n].0;
          }
        }
        assert Keys([e]) == [c];
        UniqueKeysConcat(prev, [e]);
      }
    }
  }

  /** `array_diff_key($a, $b)`: the entries of a whose key is not a key of b, in order. */
  function DiffKey<T, U>(a: seq<(string, T)>, b: seq<(string, U)>): seq<(string, T)> {
    if a == [] then []
    else
      var n := |a| - 1;
      var prev := DiffKey(a[..n], b);
      if a[n].0 !in Keys(b) then prev + [a[n]] else prev
  }

  lemma {:induction false} DiffKeyLookup<T, U>(a: seq<(string, T)>, b: seq<(string, U)>, k: string)
    ensures Lookup(DiffKey(a, b), k) == if k in Keys(b) then None else Lookup(a, k)
  {
    if a != [] {
      var n := |a| - 1;
      var prev := DiffKey(a[..n], b);
      DiffKeyLookup(a[..n], b, k);
      if a[n].0 !in Keys(b) {
        assert (prev + [a[n]])[..|prev|] == prev;
      }
    }
  }

  lemma {:induction false} DiffKeyKeys<T, U>(a: seq<(string, T)>, b: seq<(string, U)>)
    ensures Keys(DiffKey(a, b)) == Outside(Keys(a), Keys(b))
  {
    if a != [] {
      var n := |a| - 1;
      var prev := DiffKey(a[..n], b);
      DiffKeyKeys(a[..n], b);
      assert Keys(a)[..n] == Keys(a[..n]);
      if a[n].0 !in Keys(b) {
        assert (prev + [a[n]])[..|prev|] == prev;
      }
    }
  }

  lemma {:induction false} DiffKeyUnique<T, U>(a: seq<(string, T)>, b: seq<(string, U)>)
    requires UniqueKeys(a)
    ensures UniqueKeys(DiffKey(a, b))
  {
    if a != [] {
      var n := |a| - 1;
      var prev := DiffKey(a[..n], b);
      assert UniqueKeys(a[..n]);
      DiffKeyUnique(a[..n], b);
      if a[n].0 !in Keys(b) {
        DiffKeyKeys(a[..n], b);
        OutsideMember(Keys(a[..n]), Keys(b), a[n].0);
        assert a[n].0 !in Keys(a[..n]) by {
          forall i | 0 <= i < n ensures Keys(a[..n])[i] != a[n].0 {
            assert a[i].0 != a[n].0;
          }
        }
        assert Keys([a[n]]) == [a[n].0];
        UniqueKeysConcat(prev, [a[n]]);
      }
    }
  }

  /** What formatRow in src/db/init.php returns: the declared columns that are
      set, coerced, followed by every other column of the row unchanged. */
  function FormattedRow(cols: ColumnDef, row: Row, php: Runtime): Row {
    var declared := Present(cols, row, php);
    var rest := DiffKey(row, declared);
    PresentUnique(cols, row, php);
    DiffKeyUnique(row, declared);
    DisjointRest(row, declared);
    UniqueKeysConcat(declared, rest);
    declared + rest
  }

  /** The keys of a formatted row: the declared columns that are set, in
      declaration order, then the row's other keys in the row's order. */
  lemma FormattedRowOrder(cols: ColumnDef, row: Row, php: Runtime)
    ensures var declared := SetColumns(Keys(cols), row);
      Keys(FormattedRow(cols, row, php)) == declared + Outside(Keys(row), declared)
  {
    var declared := Present(cols, row, php);
    var rest := DiffKey(row, declared);
    KeysConcat(declared, rest);
    PresentKeys(cols, row, php);
    DiffKeyKeys(row, declared);
  }

  /** One more iteration of formatRow's first loop. */
  lemma PresentStep(cols: seq<(string, string)>, row: seq<(string, Value)>, php: Runtime, i: nat)
    requires i < |cols|
    ensures Present(cols[..i + 1], row, php) ==
      Present(cols[..i], row, php) +
      (if Isset(row, cols[i].0) then [(cols[i].0, Coerce(cols[i].1, Lookup(row, cols[i].0).value, php))] else [])
  {
    assert cols[..i + 1][..i] == cols[..i];
  }

  /** Each entry of array_diff_key($row, $b) is the row's own entry for that key. */
  lemma RestEntry(row: Row, b: seq<(string, Value)>, j: nat)
    requires j < |DiffKey(row, b)|
    ensures Lookup(row, DiffKey(row, b)[j].0) == Some(DiffKey(row, b)[j].1)
  {
    var rest := DiffKey(row, b);
    assert Keys(rest)[j] == rest[j].0;
    DiffKeyUnique(row, b);
    DiffKeyLookup(row, b, rest[j].0);
    LookupAt(rest, j);
  }

  /** No key of array_diff_key($a, $b) is a key of b. */
  lemma DisjointRest<T, U>(a: seq<(string, T)>, b: seq<(string, U)>)
    ensures forall k :: k in Keys(DiffKey(a, b)) ==> k !in Keys(b)
  {
    forall k | k in Keys(DiffKey(a, b)) ensures k !in Keys(b) {
      DiffKeyLookup(a, b, k);
    }
  }

  /** The value the formatted row holds under k: the row's own value, coerced
      when the column is declared and its value is not null. */
  function FormattedValue(cols: seq<(string, string)>, row: seq<(string, Value)>, k: string, php: Runtime)
    : Option<Value>
  {
    match Lookup(row, k)
    case None => None
    case Some(v) =>
      if Lookup(cols, k).Some? && v != Null then Some(Coerce(Lookup(cols, k).value, v, php))
      else Some(v)
  }

  lemma KeysConcat<T>(a: seq<(string, T)>, b: seq<(string, T)>)
    ensures Keys(a + b) == Keys(a) + Keys(b)
  {
    assert forall i :: 0 <= i < |a + b| ==> Keys(a + b)[i] == (Keys(a) + Keys(b))[i];
  }

  /** formatRow coerces a declared column only when it is present with a
      non-null value; every other value is the row's own. */
  lemma FormattedRowValue(cols: ColumnDef, row: Row, php: Runtime, k: string)
    ensures Lookup(FormattedRow(cols, row, php), k) == FormattedValue(cols, row, k, php)
  {
    var declared := Present(cols, row, php);
    var rest := DiffKey(row, declared);
    LookupConcat(declared, rest, k);
    PresentLookup(cols, row, php, k);
    DiffKeyLookup(row, declared, k);
  }

  /** formatRow keeps exactly the row's keys: it adds no declared-but-absent
      column and drops none, whether undeclared or null-valued. */
  lemma FormattedRowKeys(cols: ColumnDef, row: Row, php: Runtime, k: string)
    ensures k in Keys(FormattedRow(cols, row, php)) <==> k in Keys(row)
  {
    FormattedRowValue(cols, row, php, k);
  }
}
