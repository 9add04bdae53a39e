/**
 * The statement texts and parameter lists the helper's CRUD methods hand to
 * `execute`, the DSN its constructor connects with and the message it raises
 * on failure. Clauses, field lists and the table name are raw text that is
 * concatenated into the statement; only field values and the `find` id are
 * bound as parameters.
 */
module Statements {
  import opened Results
  import opened Php

  /** Keys are distinct, as in any PHP array. */
  predicate DistinctKeys(m: seq<(string, Scalar)>) {
    forall j, k :: 0 <= j < k < |m| ==> m[j].0 != m[k].0
  }

  /** A PHP associative array `[ field => value ]`, in insertion order. Integer
      keys are represented by their decimal text, which is how `implode` prints them. */
  type Fields = m: seq<(string, Scalar)> | DistinctKeys(m)

  /** What is bound to a statement's placeholders: values for `?` in order, or
      values for named placeholders `:name`. */
  datatype Params = Positional(values: seq<Scalar>) | Named(bindings: seq<(string, Scalar)>)

  /** One statement handed to the driver: its text and its parameters. */
  datatype Statement = Statement(query: string, params: Params)

  /** PHP `array_keys`: the field names in order. */
  function Keys(m: seq<(string, Scalar)>): (ks: seq<string>)
    ensures |ks| == |m|
    ensures forall k :: 0 <= k < |m| ==> ks[k] == m[k].0
  {
    if m == [] then [] else [m[0].0] + Keys(m[1..])
  }

  /** PHP `array_values`: the field values in order. */
  function Values(m: seq<(string, Scalar)>): (vs: seq<Scalar>)
    ensures |vs| == |m|
    ensures forall k :: 0 <= k < |m| ==> vs[k] == m[k].1
  {
    if m == [] then [] else [m[0].1] + Values(m[1..])
  }

  // ------------------------------------------------------------------ insert

  /** The text `p + x + s` starts with `p`, ends with `s` and holds exactly `x`
      between them. */
  lemma Framed(p: string, x: string, s: string)
    ensures var q := p + x + s;
            && IsPrefix(p, q) && IsSuffix(s, q)
            && |q| == |p| + |x| + |s| && q[|p|..|q| - |s|] == x
  {
  }

  /** The column list of an insert: the field names joined by commas. When no
      name holds a comma, splitting the list at commas gives the names back. */
  function InsertColumns(m: Fields): (r: string)
    ensures |m| == 0 ==> r == ""
    ensures |m| > 0 && (forall k :: 0 <= k < |m| ==> ',' !in m[k].0) ==> Split(',', r) == Keys(m)
  {
    if |m| > 0 && (forall k :: 0 <= k < |m| ==> ',' !in m[k].0) then
      SplitJoin(',', Keys(m));
      Join(",", Keys(m))
    else
      Join(",", Keys(m))
  }

  /** The placeholder list of an insert: `n` question marks joined by commas.
      It is empty exactly when there is no field, and otherwise splits at
      commas into `n` lone question marks. */
  function Placeholders(n: nat): (r: string)
    ensures r == "" <==> n == 0
    ensures n > 0 ==> Split(',', r) == Repeat("?", n)
  {
    if n > 0 then
      SplitJoin(',', Repeat("?", n));
      Join(",", Repeat("?", n))
    else
      Join(",", Repeat("?", n))
  }

  /** An insert: the table, the column list between parentheses, then as many
      placeholders as fields; the field values are bound in order. */
  function InsertStatement(table: Scalar, m: Fields): (st: Statement)
    ensures IsPrefix("INSERT INTO " + Text(table) + " (", st.query)
    ensures IsSuffix(") VALUES (" + Placeholders(|m|) + ")", st.query)
    ensures var p, s := "INSERT INTO " + Text(table) + " (", ") VALUES (" + Placeholders(|m|) + ")";
            |st.query| == |p| + |InsertColumns(m)| + |s| && st.query[|p|..|st.query| - |s|] == InsertColumns(m)
    ensures st.params == Positional(Values(m))
  {
    var p, s := "INSERT INTO " + Text(table) + " (", ") VALUES (" + Placeholders(|m|) + ")";
    Framed(p, InsertColumns(m), s);
    Statement(p + InsertColumns(m) + s, Positional(Values(m)))
  }

  /** The placeholder list is `?` and `,` alternating, starting and ending with
      `?`: exactly `n` placeholders. */
  lemma {:induction false} PlaceholdersShape(n: nat)
    ensures |Placeholders(n)| == if n == 0 then 0 else 2 * n - 1
    ensures forall k :: 0 <= k < |Placeholders(n)| ==> Placeholders(n)[k] == if k % 2 == 0 then '?' else ','
  {
    var q := Placeholders(n);
    if n == 1 {
      assert q == "?" by {
        assert Repeat("?", 1) == ["?"];
      }
    } else if n > 1 {
      PlaceholdersShape(n - 1);
      var rest := Placeholders(n - 1);
      assert q == "?," + rest by {
        var ps := Repeat("?", n);
        assert ps[0] == "?" && ps[1..] == Repeat("?", n - 1);
      }
      MarkPrepended(rest);
    }
  }

  lemma MarkPrepended(rest: string)
    requires forall k :: 0 <= k < |rest| ==> rest[k] == if k % 2 == 0 then '?' else ','
    ensures var q := "?," + rest;
            forall k :: 0 <= k < |q| ==> q[k] == if k % 2 == 0 then '?' else ','
  {
  }

  /** Column i, placeholder i and parameter i all belong to field i: splitting the
      column list at commas gives the field names in order, the placeholder list
      has one `?` per field, and the bound values are the field values in the
      same order. Field names holding a comma are excluded, since they would
      make the column list ambiguous. */
  lemma InsertAlignment(table: Scalar, m: Fields)
    requires |m| > 0
    requires forall k :: 0 <= k < |m| ==> ',' !in m[k].0
    ensures var columns := Split(',', InsertColumns(m));
            var marks := Split(',', Placeholders(|m|));
            var values := InsertStatement(table, m).params.values;
            && |columns| == |marks| == |values| == |m|
            && forall k :: 0 <= k < |m| ==> columns[k] == m[k].0 && marks[k] == "?" && values[k] == m[k].1
  {
  }

  // ------------------------------------------------------------------ select

  /** An optional clause: the keyword followed by the argument when `strlen` of
      the argument is non-zero, nothing otherwise. */
  function Clause(keyword: string, arg: Scalar): (r: string)
    ensures r == "" <==> !Present(arg)
    ensures |r| == if Present(arg) then |keyword| + |Text(arg)| else 0
  {
    if Present(arg) then keyword + Text(arg) else ""
  }

  function SelectStatement(table: Scalar, where: Scalar, order: Scalar, limit: Scalar, fields: Scalar): (st: Statement)
    ensures IsPrefix("SELECT " + Text(fields) + " FROM " + Text(table) + " ", st.query)
    ensures st.params == Positional([])
  {
    var head := "SELECT " + Text(fields) + " FROM " + Text(table) + " ";
    var slots := Clause("WHERE ", where) + " " + Clause("ORDER BY ", order) + " " + Clause("LIMIT ", limit);
    var query := head + slots;
    assert query[..|head|] == head;
    Statement(query, Positional([]))
  }

  /** A clause's keyword is written exactly when its argument has non-zero length,
      and the argument's text follows the keyword unchanged. */
  lemma ClausePresence(keyword: string, arg: Scalar)
    requires keyword != ""
    ensures IsPrefix(keyword, Clause(keyword, arg)) <==> Present(arg)
    ensures Present(arg) ==> Clause(keyword, arg)[|keyword|..] == Text(arg)
  {
  }

  /** A select's text is the head, then the three clause slots separated by
      single spaces; a dropped clause leaves its spaces behind. */
  lemma {:induction false} SelectLayout(table: Scalar, where: Scalar, order: Scalar, limit: Scalar, fields: Scalar)
    ensures var q := SelectStatement(table, where, order, limit, fields).query;
            var head := "SELECT " + Text(fields) + " FROM " + Text(table) + " ";
            var w, o, l := Clause("WHERE ", where), Clause("ORDER BY ", order), Clause("LIMIT ", limit);
            && |q| == |head| + |w| + |o| + |l| + 2
            && q[|head|..|head| + |w|] == w
            && q[|head| + |w|] == ' '
            && q[|head| + |w| + 1..|head| + |w| + 1 + |o|] == o
            && q[|head| + |w| + 1 + |o|] == ' '
            && q[|head| + |w| + |o| + 2..] == l
  {
    var head := "SELECT " + Text(fields) + " FROM " + Text(table) + " ";
    var w, o, l := Clause("WHERE ", where), Clause("ORDER BY ", order), Clause("LIMIT ", limit);
    var q := SelectStatement(table, where, order, limit, fields).query;
    SelectText(table, where, order, limit, fields);
    SlotsLayout(q, head, w, o, l);
  }

  lemma SelectText(table: Scalar, where: Scalar, order: Scalar, limit: Scalar, fields: Scalar)
    ensures SelectStatement(table, where, order, limit, fields).query
         == ("SELECT " + Text(fields) + " FROM " + Text(table) + " ")
          + (Clause("WHERE ", where) + " " + Clause("ORDER BY ", order) + " " + Clause("LIMIT ", limit))
  {
  }

  lemma {:induction false} SlotsLayout(q: string, head: string, w: string, o: string, l: string)
    requires q == head + (w + " " + o + " " + l)
    ensures && |q| == |head| + |w| + |o| + |l| + 2
            && q[|head|..|head| + |w|] == w
            && q[|head| + |w|] == ' '
            && q[|head| + |w| + 1..|head| + |w| + 1 + |o|] == o
            && q[|head| + |w| + 1 + |o|] == ' '
            && q[|head| + |w| + |o| + 2..] == l
  {
  }

  /** A null argument and an empty string produce the same statement. */
  lemma {:induction false} SelectNullIsEmpty(table: Scalar, where: Scalar, order: Scalar, limit: Scalar, fields: Scalar)
    ensures SelectStatement(table, Null, order, limit, fields) == SelectStatement(table, Str(""), order, limit, fields)
    ensures SelectStatement(table, where, Null, limit, fields) == SelectStatement(table, where, Str(""), limit, fields)
    ensures SelectStatement(table, where, order, Null, fields) == SelectStatement(table, where, order, Str(""), fields)
  {
  }

  /** A select with every argument left at its default reads the whole table:
      the three empty slots leave three spaces. */
  lemma {:induction false} SelectAll(table: Scalar)
    ensures SelectStatement(table, Null, Null, Null, Str("*")).query == "SELECT * FROM " + Text(table) + "   "
  {
  }

  /** A clause argument of "0" is kept: its length is one. */
  lemma SelectKeepsZero(table: Scalar, fields: Scalar)
    ensures SelectStatement(table, Str("0"), Null, Null, fields).query
         == "SELECT " + Text(fields) + " FROM " + Text(table) + " WHERE 0  "
  {
  }

  // ------------------------------------------------------------------ update

  /** The SET list as the helper writes it: the field names joined by `=?,`, then
      a final `=?`. For at least one field it is the comma-separated list of
      assignments `name=?`; for none it is a lone `=?`. */
  function SetList(m: Fields): (r: string)
    ensures m == [] ==> r == "=?"
    ensures m != [] ==> r == Join(",", Assignments(Keys(m)))
    ensures IsSuffix("=?", r)
  {
    var r := Join("=?,", Keys(m)) + "=?";
    assert r[|r| - 2..] == "=?";
    if m == [] then r else SetListIsAssignments(Keys(m)); r
  }

  /** An update: the table, the SET list, then the where text; the field values
      are bound in order. */
  function UpdateStatement(table: Scalar, where: Scalar, m: Fields): (st: Statement)
    ensures IsPrefix("UPDATE " + Text(table) + " SET ", st.query)
    ensures IsSuffix(" WHERE " + Text(where), st.query)
    ensures var p, s := "UPDATE " + Text(table) + " SET ", " WHERE " + Text(where);
            |st.query| == |p| + |SetList(m)| + |s| && st.query[|p|..|st.query| - |s|] == SetList(m)
    ensures st.params == Positional(Values(m))
  {
    var p, s := "UPDATE " + Text(table) + " SET ", " WHERE " + Text(where);
    Framed(p, SetList(m), s);
    Statement(p + SetList(m) + s, Positional(Values(m)))
  }

  /** One assignment `name=?` per field name: the reference form of a SET list. */
  function Assignments(names: seq<string>): (r: seq<string>)
    ensures |r| == |names|
    ensures forall k :: 0 <= k < |names| ==> r[k] == names[k] + "=?"
  {
    if names == [] then [] else [names[0] + "=?"] + Assignments(names[1..])
  }

  /** For at least one field, the helper's SET list is the comma-separated list
      of assignments `name=?`, one per field, in order. */
  lemma {:induction false} SetListIsAssignments(names: seq<string>)
    requires |names| > 0
    ensures Join("=?,", names) + "=?" == Join(",", Assignments(names))
    decreases |names|
  {
    if |names| > 1 {
      SetListIsAssignments(names[1..]);
      var rest := Join("=?,", names[1..]);
      assert Assignments(names)[1..] == Assignments(names[1..]);
      calc {
        Join("=?,", names) + "=?";
        names[0] + "=?," + rest + "=?";
        (names[0] + "=?") + "," + (rest + "=?");
        (names[0] + "=?") + "," + Join(",", Assignments(names[1..]));
        Join(",", Assignments(names));
      }
    }
  }

  /** Assignment i and parameter i belong to field i, so there are as many
      `name=?` assignments as bound values whenever the map is not empty. */
  lemma UpdateAlignment(table: Scalar, where: Scalar, m: Fields)
    requires |m| > 0
    requires forall k :: 0 <= k < |m| ==> ',' !in m[k].0
    ensures var assignments := Split(',', SetList(m));
            var values := UpdateStatement(table, where, m).params.values;
            && |assignments| == |values| == |m|
            && forall k :: 0 <= k < |m| ==> assignments[k] == m[k].0 + "=?" && values[k] == m[k].1
  {
    SetListIsAssignments(Keys(m));
    var a := Assignments(Keys(m));
    forall k | 0 <= k < |a| ensures ',' !in a[k] {
      assert a[k] == m[k].0 + "=?";
    }
    SplitJoin(',', a);
  }

  /** With no fields the SET list is a lone `=?`: one placeholder and nothing
      bound to it. */
  lemma UpdateEmpty(table: Scalar, where: Scalar)
    ensures UpdateStatement(table, where, []).query == "UPDATE " + Text(table) + " SET =? WHERE " + Text(where)
    ensures UpdateStatement(table, where, []).params == Positional([])
  {
    Glue("UPDATE " + Text(table), " SET ", "=?", " WHERE ", " SET =? WHERE ", Text(where));
  }

  /** Regrouping a text whose middle pieces together form `link`. */
  lemma Glue(head: string, a: string, b: string, c: string, link: string, tail: string)
    requires link == a + b + c
    ensures (head + a) + b + (c + tail) == head + link + tail
  {
  }

  // ------------------------------------------------------------------ delete

  function DeleteStatement(table: Scalar, where: Scalar): (st: Statement)
    ensures IsPrefix("DELETE FROM " + Text(table), st.query)
    ensures IsSuffix(" WHERE " + Text(where), st.query)
    ensures |st.query| == |"DELETE FROM " + Text(table)| + |" WHERE " + Text(where)|
    ensures st.params == Positional([])
  {
    Statement("DELETE FROM " + Text(table) + " WHERE " + Text(where), Positional([]))
  }

  // -------------------------------------------------------------------- find

  function FindStatement(table: Scalar, id: Scalar, fields: Scalar): (st: Statement)
    ensures IsPrefix("SELECT " + Text(fields) + " FROM " + Text(table), st.query)
    ensures st.params == Named([("id", id)])
    ensures IsSuffix(" WHERE id = :" + st.params.bindings[0].0, st.query)
    ensures |st.query| == |"SELECT " + Text(fields) + " FROM " + Text(table)| + |" WHERE id = :id"|
  {
    var head := "SELECT " + Text(fields) + " FROM " + Text(table);
    Statement(head + " WHERE id = :id", Named([("id", id)]))
  }

  // ---------------------------------------------------------- DSN and errors

  /** The data source name the constructor connects with: the MySQL host entry,
      then the database name entry, then the port entry. */
  function Dsn(host: Scalar, name: Scalar, port: Scalar): (r: string)
    ensures var p, s := "mysql:host=" + Text(host), ";port=" + Text(port);
            && IsPrefix(p, r) && IsSuffix(s, r)
            && |r| == |p| + |";dbname=" + Text(name)| + |s| && r[|p|..|r| - |s|] == ";dbname=" + Text(name)
  {
    var p, s := "mysql:host=" + Text(host), ";port=" + Text(port);
    Framed(p, ";dbname=" + Text(name), s);
    p + (";dbname=" + Text(name)) + s
  }

  /** When no setting contains `;`, the DSN consists of exactly three
      `;`-separated entries: host, database name and port, in that order. */
  lemma DsnEntries(host: Scalar, name: Scalar, port: Scalar)
    requires ';' !in Text(host) && ';' !in Text(name) && ';' !in Text(port)
    ensures Split(';', Dsn(host, name, port)) == ["mysql:host=" + Text(host), "dbname=" + Text(name), "port=" + Text(port)]
  {
    var a, b, c := "mysql:host=" + Text(host), "dbname=" + Text(name), "port=" + Text(port);
    SplitThree(a, b, c);
    var r := Dsn(host, name, port);
    assert r == a + ";" + b + ";" + c by {
      Regroup("mysql:host=", Text(host), ";dbname=", Text(name), ";port=", Text(port));
    }
  }

  lemma Regroup(k1: string, v1: string, k2: string, v2: string, k3: string, v3: string)
    requires |k2| > 0 && |k3| > 0 && k2[0] == ';' && k3[0] == ';'
    ensures (k1 + v1) + (k2 + v2) + (k3 + v3) == (k1 + v1) + ";" + (k2[1..] + v2) + ";" + (k3[1..] + v3)
  {
  }

  lemma SplitThree(a: string, b: string, c: string)
    requires ';' !in a && ';' !in b && ';' !in c
    ensures Split(';', a + ";" + b + ";" + c) == [a, b, c]
  {
    var entries := [a, b, c];
    assert Join([';'], entries[1..]) == b + [';'] + c by {
      assert entries[1..][1..] == [c];
    }
    assert Join([';'], entries) == a + ";" + b + ";" + c;
    SplitJoin(';', entries);
  }

  /** An integer port is written so that it reads back as the same number. */
  lemma DsnPort(host: Scalar, name: Scalar, port: int)
    requires ';' !in Text(host) && ';' !in Text(name)
    ensures var entries := Split(';', Dsn(host, name, Int(port)));
            && |entries| == 3 && |entries[2]| >= 5
            && entries[2][..5] == "port=" && ParseDecimal(entries[2][5..]) == Some(port)
  {
    DecimalTextChars(port, ';');
    DsnEntries(host, name, Int(port));
    var entry := "port=" + DecimalText(port);
    assert entry[5..] == DecimalText(port);
    DecimalRoundTrip(port);
  }

  const ErrorPrefix := "ERROR: "

  /** The message raised for a failure of the driver: the prefix, then the
      driver's own message unchanged. */
  function Wrap(message: string): (r: string)
    ensures |r| == |ErrorPrefix| + |message|
    ensures r[..|ErrorPrefix|] == ErrorPrefix && r[|ErrorPrefix|..] == message
  {
    ErrorPrefix + message
  }
}
