/**
 * The helper object `TSM\Database`: process-wide connection settings, and an
 * accessor bound to one table that builds each CRUD statement and runs it
 * through `Execute`. The driver and the store behind it are not modelled:
 * every call that reaches them takes the driver's reply as a parameter, and
 * the accessor records, in `log`, every statement it hands to the driver.
 */
module Tsm {
  import opened Results
  import opened Php
  import opened Statements

  const DefaultPort := 3306

  /** A row as the driver fetches it: column name to value, in column order. */
  type Row = seq<(string, Scalar)>

  /** What the driver answers to one statement: the rows it produced and the
      connection's last inserted id, or an error message. */
  datatype Reply = Done(rows: seq<Row>, lastId: string) | Raised(message: string)

  /** What the driver answers to a connection attempt. */
  datatype ConnectReply = Connected | Refused(message: string)

  /** The connection an accessor holds: the DSN and credentials it was opened
      with. Errors on it always raise. */
  datatype Connection = Connection(dsn: string, user: Scalar, pass: Scalar)

  /** How a call to the driver ends: its rows, or the driver's message behind the
      helper's error prefix. */
  function Outcome(reply: Reply): (r: Result<seq<Row>, string>)
    ensures r.Success? <==> reply.Done?
    ensures reply.Done? ==> r.value == reply.rows
    ensures reply.Raised? ==> r.error == Wrap(reply.message)
  {
    match reply
    case Done(rows, _) => Success(rows)
    case Raised(message) => Failure(Wrap(message))
  }

  /** `fetch(PDO::FETCH_ASSOC) ?: null`: the first row, or nothing when there is
      no row or the first row is empty (an empty array is falsy). */
  function FirstRow(rows: seq<Row>): (r: Option<Row>)
    ensures r.None? <==> (rows == [] || rows[0] == [])
    ensures r.Some? ==> r.value == rows[0]
  {
    if rows == [] || rows[0] == [] then None else Some(rows[0])
  }

  /** The static settings shared by every accessor; all are null until configured. */
  class Settings {
    var host: Scalar
    var name: Scalar
    var user: Scalar
    var pass: Scalar
    var port: Scalar

    constructor ()
      ensures host == Null && name == Null && user == Null && pass == Null && port == Null
    {
      host, name, user, pass, port := Null, Null, Null, Null, Null;
    }

    /** Overwrites all five settings; the port defaults to 3306. */
    method Config(host: Scalar, name: Scalar, user: Scalar, pass: Scalar, port: Scalar := Int(DefaultPort))
      modifies this
      ensures this.host == host && this.name == name && this.user == user
      ensures this.pass == pass && this.port == port
    {
      this.host, this.name, this.user, this.pass, this.port := host, name, user, pass, port;
    }
  }

  /** Opens a connection with the settings current at the time of the call. A
      refusal is raised again with the error prefix; nothing is retried. */
  method SetConnection(settings: Settings, reply: ConnectReply) returns (r: Result<Connection, string>)
    ensures r.Success? <==> reply.Connected?
    ensures reply.Refused? ==> r.error == Wrap(reply.message)
    ensures r.Success? ==> r.value.dsn == Dsn(settings.host, settings.name, settings.port)
    ensures r.Success? ==> r.value.user == settings.user && r.value.pass == settings.pass
  {
    var dsn := Dsn(settings.host, settings.name, settings.port);
    match reply {
      case Connected =>
        r := Success(Connection(dsn, settings.user, settings.pass));
      case Refused(message) =>
        r := Failure(Wrap(message));
    }
  }

  /** `new Database($table)`: stores the table name, then connects. When the
      connection fails no accessor is created and the prefixed error is raised. */
  method Open(settings: Settings, reply: ConnectReply, table: Scalar := Null) returns (r: Result<Database, string>)
    ensures r.Success? <==> reply.Connected?
    ensures reply.Refused? ==> r.error == Wrap(reply.message)
    ensures r.Success? ==> fresh(r.value) && r.value.table == table && r.value.log == []
    ensures r.Success? ==> r.value.connection == Connection(Dsn(settings.host, settings.name, settings.port), settings.user, settings.pass)
  {
    var c := SetConnection(settings, reply);
    match c {
      case Success(connection) =>
        var db := new Database(table, connection);
        r := Success(db);
      case Failure(error) =>
        r := Failure(error);
    }
  }

  class Database {
    /** The table every statement of this accessor is about, fixed at construction. */
    const table: Scalar
    const connection: Connection
    /** Every statement handed to the driver, oldest first. */
    var log: seq<Statement>

    constructor (table: Scalar, connection: Connection)
      ensures this.table == table && this.connection == connection && log == []
    {
      this.table := table;
      this.connection := connection;
      log := [];
    }

    /** Hands one statement to the driver. A driver error is raised again with
        the error prefix and nothing else changed. */
    method Execute(reply: Reply, query: string, params: Params := Positional([])) returns (r: Result<seq<Row>, string>)
      modifies this
      ensures log == old(log) + [Statement(query, params)]
      ensures r == Outcome(reply)
    {
      log := log + [Statement(query, params)];
      r := Outcome(reply);
    }

    /** Inserts one row and answers the connection's last inserted id. */
    method Insert(reply: Reply, values: Fields) returns (r: Result<string, string>)
      modifies this
      ensures log == old(log) + [InsertStatement(table, values)]
      ensures r.Success? <==> reply.Done?
      ensures reply.Done? ==> r.value == reply.lastId
      ensures reply.Raised? ==> r.error == Wrap(reply.message)
    {
      var st := InsertStatement(table, values);
      var e := Execute(reply, st.query, st.params);
      match e {
        case Success(_) => r := Success(reply.lastId);
        case Failure(error) => r := Failure(error);
      }
    }

    /** Runs a select and answers its rows; no value is bound. */
    method Select(reply: Reply, where: Scalar := Null, order: Scalar := Null, limit: Scalar := Null, fields: Scalar := Str("*"))
      returns (r: Result<seq<Row>, string>)
      modifies this
      ensures log == old(log) + [SelectStatement(table, where, order, limit, fields)]
      ensures r == Outcome(reply)
    {
      var st := SelectStatement(table, where, order, limit, fields);
      r := Execute(reply, st.query);
    }

    /** Runs an update and answers true whenever the driver does not raise,
        however many rows it changed. */
    method Update(reply: Reply, where: Scalar, values: Fields) returns (r: Result<bool, string>)
      modifies this
      ensures log == old(log) + [UpdateStatement(table, where, values)]
      ensures r.Success? <==> reply.Done?
      ensures r.Success? ==> r.value
      ensures reply.Raised? ==> r.error == Wrap(reply.message)
    {
      var st := UpdateStatement(table, where, values);
      var e := Execute(reply, st.query, st.params);
      match e {
        case Success(_) => r := Success(true);
        case Failure(error) => r := Failure(error);
      }
    }

    /** Runs a delete and answers true whenever the driver does not raise,
        however many rows it removed. */
    method Delete(reply: Reply, where: Scalar) returns (r: Result<bool, string>)
      modifies this
      ensures log == old(log) + [DeleteStatement(table, where)]
      ensures r.Success? <==> reply.Done?
      ensures r.Success? ==> r.value
      ensures reply.Raised? ==> r.error == Wrap(reply.message)
    {
      var st := DeleteStatement(table, where);
      var e := Execute(reply, st.query);
      match e {
        case Success(_) => r := Success(true);
        case Failure(error) => r := Failure(error);
      }
    }

    /** Looks a row up by id. A missing row is no error: the answer is `None`. */
    method Find(reply: Reply, id: Scalar, fields: Scalar := Str("*")) returns (r: Result<Option<Row>, string>)
      modifies this
      ensures log == old(log) + [FindStatement(table, id, fields)]
      ensures r.Success? <==> reply.Done?
      ensures reply.Done? ==> r.value == FirstRow(reply.rows)
      ensures reply.Raised? ==> r.error == Wrap(reply.message)
    {
      var st := FindStatement(table, id, fields);
      var e := Execute(reply, st.query, st.params);
      match e {
        case Success(rows) => r := Success(FirstRow(rows));
        case Failure(error) => r := Failure(error);
      }
    }
  }

  /** A client: configure, then open an accessor on `users`. The DSN uses the
      settings current when the accessor is opened; configuring again later
      does not reach it. */
  method ConnectScenario() returns (db: Database)
    ensures fresh(db) && db.log == [] && db.table == Str("users")
    ensures db.connection == Connection(Dsn(Str("localhost"), Str("testdb"), Int(3306)), Str("root"), Str("pw"))
  {
    var settings := new Settings();
    settings.Config(Str("localhost"), Str("testdb"), Str("root"), Str("pw"));
    var connected := Open(settings, Connected, Str("users"));
    db := connected.value;
    settings.Config(Str("otherhost"), Str("otherdb"), Str("root"), Str("pw"), Int(3307));
  }

  /** A client of an open accessor on `users`: what each call answers and the
      statements the accessor hands to the driver, one per call. */
  method CrudScenario(db: Database)
    requires db.table == Str("users") && db.log == []
    modifies db
    ensures db.log == [
      InsertStatement(Str("users"), [("name", Str("Alice")), ("age", Int(30))]),
      UpdateStatement(Str("users"), Str("id=7"), [("age", Int(31))]),
      FindStatement(Str("users"), Int(7), Str("*")),
      DeleteStatement(Str("users"), Str("id=7")),
      SelectStatement(Str("users"), Null, Null, Null, Str("*"))]
  {
    var id := db.Insert(Done([], "7"), [("name", Str("Alice")), ("age", Int(30))]);
    assert id == Success("7");
    var updated := db.Update(Done([], "7"), Str("id=7"), [("age", Int(31))]);
    assert updated == Success(true);
    var found := db.Find(Done([], "7"), Int(7));
    assert found == Success(None);
    var deleted := db.Delete(Raised("gone away"), Str("id=7"));
    assert deleted == Failure(Wrap("gone away"));
    var all := db.Select(Done([[("id", Int(7))]], "7"));
    assert all == Success([[("id", Int(7))]]);
  }
}
