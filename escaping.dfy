/** A concrete model of the escaping primitive, for the characters the
    escape_string doc comment lists, and what it guarantees about the quoted
    literals of an INSERT: JSON text that bypasses it (the insert of
    src/db/init.php) can break out of its quotes; JSON text that goes
    through it (update, and the insert of db/init.php) cannot. */
module Escaping {
  import opened Php
  import opened Db

  /** One character as mysqli's escape_string writes it: NUL, newline,
      carriage return, backslash, both quotes and Control-Z get a backslash. */
  function EscapeChar(c: char): string {
    if c == 0 as char then "\\0"
    else if c == '\n' then "\\n"
    else if c == '\r' then "\\r"
    else if c == 26 as char then "\\Z"
    else if c == '\\' || c == '\'' || c == '"' then ['\\', c]
    else [c]
  }

  /** escape_string over the listed characters: whatever the input, the
      escaped text stays inside its quotes, and it is at most twice as long. */
  function MysqlEscape(s: string): (r: string)
    ensures Escaped(r)
    ensures |s| <= |r| <= 2 * |s|
  {
    if s == [] then []
    else
      var e := EscapeChar(s[0]);
      var rest := MysqlEscape(s[1..]);
      EscapeCharShape(s[0]);
      assert |e| == 2 ==> (e + rest)[2..] == rest;
      assert |e| == 1 ==> (e + rest)[1..] == rest;
      e + rest
  }

  /** What a backslash sequence inside a quoted literal stands for, as the
      MySQL reference manual's table of special character escape sequences
      gives it; `\%` and `\_` keep their backslash, and any other escaped
      character stands for itself. */
  function UnescapeSequence(c: char): string {
    if c == '0' then [0 as char]
    else if c == 'b' then [8 as char]
    else if c == 'n' then ['\n']
    else if c == 'r' then ['\r']
    else if c == 't' then ['\t']
    else if c == 'Z' then [26 as char]
    else if c == '%' || c == '_' then ['\\', c]
    else [c]
  }

  /** The text the server reads from the inside of a quoted literal. */
  function Unescape(s: string): string
    decreases |s|
  {
    if s == [] then []
    else if s[0] == '\\' && |s| >= 2 then UnescapeSequence(s[1]) + Unescape(s[2..])
    else [s[0]] + Unescape(s[1..])
  }

  /** The server reads one escaped character back as that character. */
  lemma UnescapeEscapeChar(c: char, rest: string)
    ensures Unescape(EscapeChar(c) + rest) == [c] + Unescape(rest)
  {
    var e := EscapeChar(c);
    EscapeCharShape(c);
    if |e| == 2 {
      assert (e + rest)[2..] == rest;
      assert UnescapeSequence(e[1]) == [c];
    } else {
      assert (e + rest)[1..] == rest;
    }
  }

  /** The server reads back exactly the text that was escaped: escaping loses nothing. */
  lemma {:induction false} UnescapeMysqlEscape(s: string)
    ensures Unescape(MysqlEscape(s)) == s
  {
    if s != [] {
      UnescapeMysqlEscape(s[1..]);
      UnescapeEscapeChar(s[0], MysqlEscape(s[1..]));
      assert s == [s[0]] + s[1..];
    }
  }

  /** Text that stays one SQL string literal between two single quotes: no
      bare quote, and every backslash escapes the character after it. */
  predicate Escaped(s: string)
    decreases |s|
  {
    if s == [] then true
    else if s[0] == '\\' then |s| >= 2 && Escaped(s[2..])
    else s[0] != '\'' && Escaped(s[1..])
  }

  /** A single well-formed quoted SQL string literal. */
  predicate QuotedLiteral(lit: string) {
    |lit| >= 2 && lit[0] == '\'' && lit[|lit| - 1] == '\'' && Escaped(lit[1..|lit| - 1])
  }

  /** An escaped character is a plain character or a backslash pair. */
  lemma EscapeCharShape(c: char)
    ensures var e := EscapeChar(c);
      (|e| == 1 && e[0] != '\\' && e[0] != '\'') || (|e| == 2 && e[0] == '\\')
  {
  }

  /** The INSERT with JSON text escaped like every other string value. */
  function EscapedInsertStatement(table: string, cols: seq<(string, string)>, data: seq<(string, Value)>,
                                  escape: string -> string, php: Runtime): (r: string)
    ensures (forall i :: 0 <= i < |data| ==> Lookup(cols, data[i].0) != Some("json")) ==>
      r == InsertStatement(table, cols, data, escape, php)
  {
    LiteralListVersions(cols, data, escape, php);
    "INSERT into `" + table + "` (" + Join(", ", Keys(data)) + ") VALUES ("
      + Join(", ", Literals(cols, data, escape, php, true)) + ");"
  }

  /** With the escaping primitive, every value literal of an INSERT or an
      UPDATE that escapes JSON text and is not a number column is one
      well-formed quoted literal, whatever the value; only the JSON literals
      differ from those the insert of src/db/init.php issues. */
  lemma EscapedLiteralWellFormed(cols: seq<(string, string)>, column: string, v: Value, php: Runtime)
    requires Lookup(cols, column) != Some("number")
    ensures QuotedLiteral(Literal(cols, column, v, MysqlEscape, php, true))
    ensures Lookup(cols, column) != Some("json") ==>
      Literal(cols, column, v, MysqlEscape, php, true) == Literal(cols, column, v, MysqlEscape, php, false)
  {
    var text := if Lookup(cols, column) == Some("json") then php.jsonEncode(v) else ToText(v);
    var lit := "'" + MysqlEscape(text) + "'";
    assert Literal(cols, column, v, MysqlEscape, php, true) == lit;
    assert lit[1..|lit| - 1] == MysqlEscape(text);
  }

  /** Every value of the corrected INSERT outside a number column is one
      well-formed quoted literal. */
  lemma EscapedInsertQuotesWellFormed(cols: seq<(string, string)>, data: seq<(string, Value)>, php: Runtime)
    ensures var lits := Literals(cols, data, MysqlEscape, php, true);
      |lits| == |data| &&
      forall i :: 0 <= i < |data| && Lookup(cols, data[i].0) != Some("number") ==> QuotedLiteral(lits[i])
  {
    LiteralsAligned(cols, data, MysqlEscape, php, true);
    forall i | 0 <= i < |data| && Lookup(cols, data[i].0) != Some("number")
      ensures QuotedLiteral(Literals(cols, data, MysqlEscape, php, true)[i])
    {
      EscapedLiteralWellFormed(cols, data[i].0, data[i].1, php);
    }
  }

  /** The JSON text of the example below: an apostrophe, unescaped, inside
      double quotes. */
  const ItsJson: string := "\"it's\""

  lemma ItsJsonEscaping()
    ensures !Escaped(ItsJson)
    ensures MysqlEscape(ItsJson) == "\\\"it\\'s\\\""
  {
    var s := ItsJson;
    assert s[1..] == "it's\"";
    assert s[1..][1..] == "t's\"";
    assert s[1..][1..][1..] == "'s\"";
    assert s[1..][1..][1..][1..] == "s\"";
    assert s[1..][1..][1..][1..][1..] == "\"";
    assert MysqlEscape("\"") == "\\\"" by {
      assert "\""[1..] == [];
    }
    assert MysqlEscape("s\"") == "s\\\"" by {
      assert "s\""[1..] == "\"";
    }
    assert MysqlEscape("'s\"") == "\\'s\\\"" by {
      assert "'s\""[1..] == "s\"";
    }
    assert MysqlEscape("t's\"") == "t\\'s\\\"" by {
      assert "t's\""[1..] == "'s\"";
    }
    assert MysqlEscape("it's\"") == "it\\'s\\\"" by {
      assert "it's\""[1..] == "t's\"";
    }
  }

  /** The value list of a one-entry insert into a JSON column. */
  lemma JsonValueList(v: Value, php: Runtime, escapeJson: bool)
    requires php.jsonEncode(v) == ItsJson
    ensures Literals([("meta", "json")], [("meta", v)], MysqlEscape, php, escapeJson)
      == ["'" + (if escapeJson then MysqlEscape(ItsJson) else ItsJson) + "'"]
  {
    var cols: seq<(string, string)> := [("meta", "json")];
    var data: seq<(string, Value)> := [("meta", v)];
    assert Lookup(cols, "meta") == Some("json");
    assert data[..0] == [];
  }

  /** As issued by src/db/init.php: a JSON value whose encoding holds an
      apostrophe (the string `it's`, say) leaves a bare quote inside its
      VALUES literal, while the corrected statement keeps it escaped. */
  lemma JsonInsertBreaksQuoting(v: Value, php: Runtime)
    requires php.jsonEncode(v) == ItsJson
    ensures !QuotedLiteral(Literals([("meta", "json")], [("meta", v)], MysqlEscape, php, false)[0])
    ensures QuotedLiteral(Literals([("meta", "json")], [("meta", v)], MysqlEscape, php, true)[0])
  {
    JsonValueList(v, php, false);
    JsonValueList(v, php, true);
    ItsJsonEscaping();
    var asIssued := "'" + ItsJson + "'";
    assert asIssued[1..|asIssued| - 1] == ItsJson;
    var corrected := "'" + MysqlEscape(ItsJson) + "'";
    assert corrected[1..|corrected| - 1] == MysqlEscape(ItsJson);
  }

  lemma OneKeyHead(table: string, column: string, v: Value)
    ensures "INSERT into `" + table + "` (" + Join(", ", Keys([(column, v)])) + ") VALUES ("
      == "INSERT into `" + table + "` (" + column + ") VALUES ("
  {
    assert Keys([(column, v)]) == [column];
  }

  /** The statement src/db/init.php issues for that example. */
  lemma JsonInsertAsIssued(v: Value, php: Runtime)
    requires php.jsonEncode(v) == ItsJson
    ensures InsertStatement("t", [("meta", "json")], [("meta", v)], MysqlEscape, php)
      == "INSERT into `" + "t" + "` (" + "meta" + ") VALUES ('" + "\"it's\"" + "');"
  {
    OneKeyHead("t", "meta", v);
    JsonValueList(v, php, false);
    assert Join(", ", ["'" + ItsJson + "'"]) == "'" + ItsJson + "'";
  }

  /** A one-entry corrected insert into a JSON column. */
  lemma EscapedOneJsonInsert(table: string, column: string, v: Value, escape: string -> string, php: Runtime,
                             escaped: string)
    requires escape(php.jsonEncode(v)) == escaped
    ensures EscapedInsertStatement(table, [(column, "json")], [(column, v)], escape, php)
      == "INSERT into `" + table + "` (" + column + ") VALUES ('" + escaped + "');"
  {
    var lit := "'" + escaped + "'";
    var data: seq<(string, Value)> := [(column, v)];
    assert data[..0] == [];
    assert Lookup([(column, "json")], column) == Some("json");
    assert Literals([(column, "json")], data, escape, php, true) == [lit];
    assert Join(", ", [lit]) == lit;
    OneKeyHead(table, column, v);
  }

  /** The corrected statement for that example. */
  lemma JsonInsertCorrected(v: Value, php: Runtime)
    requires php.jsonEncode(v) == ItsJson
    ensures EscapedInsertStatement("t", [("meta", "json")], [("meta", v)], MysqlEscape, php)
      == "INSERT into `" + "t" + "` (" + "meta" + ") VALUES ('" + "\\\"it\\'s\\\"" + "');"
  {
    ItsJsonEscaping();
    EscapedOneJsonInsert("t", "meta", v, MysqlEscape, php, "\\\"it\\'s\\\"");
  }
}
