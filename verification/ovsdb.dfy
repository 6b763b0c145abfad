/**
 * The exporter's OVSDB access: the select operations `List` sends, the
 * first-row rule of `Get`, the row-by-row decoding of `List`, and the
 * connection cache. The database client is a parameter: `dial` opens a
 * connection, `transact` answers a list of operations with one row list
 * per operation, and a `Schema` decodes a row into a record.
 */
module Ovsdb {
  import opened Wrappers

  /** The value of a condition: a plain string, or `["uuid", v]` for the `_uuid` column. */
  datatype CondValue = Plain(text: string) | UuidRef(uuid: string)

  /** A `where` condition; the exporter only uses equality. */
  datatype Condition = Equal(column: string, value: CondValue)

  /** A select on a table, with no `where` clause or with one. */
  datatype Operation = Select(table: string, where: Option<seq<Condition>>)

  /** What the exporter knows of a table model: its table, its fields, how to decode a row. */
  datatype Schema<!R, T> = Schema(
    table: string,
    fields: set<string>,
    hasUuidField: bool,
    decode: R -> Result<T, string>)

  datatype DbError =
    | ConnectFailed(reason: string)
    | NoValues            // a column was given without values
    | UnknownColumn(column: string)
    | TransactFailed(reason: string)
    | DecodeFailed(reason: string)
    | SetUuidFailed       // the model has no `_uuid` field
    | NotFound

  // ---------------------------------------------------------------------
  // getOperations

  /**
   * No arguments select the whole table; otherwise the first argument is a
   * column of the table and every further argument a value to match.
   */
  function GetOperations<R, T>(schema: Schema<R, T>, colInfo: seq<string>): (r: Result<seq<Operation>, DbError>)
    ensures |colInfo| == 0 ==> r == Success([Select(schema.table, None)])
    ensures |colInfo| == 1 ==> r == Failure(NoValues)
    ensures |colInfo| >= 2 && colInfo[0] !in schema.fields ==> r == Failure(UnknownColumn(colInfo[0]))
    ensures |colInfo| >= 2 && colInfo[0] in schema.fields ==> r.Success? && |r.value| == |colInfo| - 1
  {
    if |colInfo| == 0 then Success([Select(schema.table, None)])
    else if |colInfo| < 2 then Failure(NoValues)
    else
      var column := colInfo[0];
      if column !in schema.fields then Failure(UnknownColumn(column))
      else
        var values := colInfo[1..];
        Success(seq(|values|, k requires 0 <= k < |values| =>
          Select(schema.table, Some([Equal(column, if column == "_uuid" then UuidRef(values[k]) else Plain(values[k]))]))))
  }

  /** Each value gets its own select with a single equality on the column, in argument order. */
  lemma GetOperationsSelects<R, T>(schema: Schema<R, T>, colInfo: seq<string>, k: nat)
    requires |colInfo| >= 2 && colInfo[0] in schema.fields && k < |colInfo| - 1
    ensures var ops := GetOperations(schema, colInfo).value;
            var v := colInfo[k + 1];
            ops[k].table == schema.table &&
            ops[k].where == Some([Equal(colInfo[0], if colInfo[0] == "_uuid" then UuidRef(v) else Plain(v))])
  {
  }

  // ---------------------------------------------------------------------
  // The connection cache

  /** A connection handle of the database client. */
  type Client = nat

  /**
   * connect: return the stored connection without dialing; otherwise dial
   * and store the connection only when dialing succeeded.
   */
  function Connect(cache: Option<Client>, dial: Result<Client, string>): (r: (Option<Client>, Result<Client, DbError>))
    ensures cache.Some? ==> r == (cache, Success(cache.value))
    ensures cache.None? && dial.Failure? ==> r == (None, Failure(ConnectFailed(dial.error)))
    ensures cache.None? && dial.Success? ==> r == (Some(dial.value), Success(dial.value))
  {
    match cache
    case Some(c) => (cache, Success(c))
    case None =>
      match dial
      case Failure(e) => (None, Failure(ConnectFailed(e)))
      case Success(c) => (Some(c), Success(c))
  }

  /** After a successful connect, every later connect returns the same connection, whatever dialing would do. */
  lemma ConnectCached(cache: Option<Client>, dial: Result<Client, string>, again: Result<Client, string>)
    requires Connect(cache, dial).1.Success?
    ensures Connect(Connect(cache, dial).0, again) == (Connect(cache, dial).0, Connect(cache, dial).1)
  {
  }

  /** A failed connect stores nothing, so the next one dials again. */
  lemma ConnectRetries(cache: Option<Client>, dial: Result<Client, string>, again: Result<Client, string>)
    requires Connect(cache, dial).1.Failure?
    ensures Connect(cache, dial).0 == None
    ensures Connect(Connect(cache, dial).0, again).1 == (if again.Success? then Success(again.value) else Failure(ConnectFailed(again.error)))
  {
  }

  // ---------------------------------------------------------------------
  // Get

  /** The rows of all operation results, in order. */
  function Flatten<R>(results: seq<seq<R>>): (rows: seq<R>)
  {
    if |results| == 0 then [] else results[0] + Flatten(results[1..])
  }

  /**
   * Get: select the whole table and decode the first row of the first
   * result that has rows; no row at all is NotFound.
   */
  function Get<R, T>(schema: Schema<R, T>, cache: Option<Client>, dial: Result<Client, string>,
                     transact: (Client, seq<Operation>) -> Result<seq<seq<R>>, string>): (r: (Option<Client>, Result<T, DbError>))
    ensures r.0 == Connect(cache, dial).0
  {
    var (cache', conn) := Connect(cache, dial);
    match conn
    case Failure(e) => (cache', Failure(e))
    case Success(db) =>
      match transact(db, [Select(schema.table, None)])
      case Failure(e) => (cache', Failure(TransactFailed(e)))
      case Success(res) => (cache', FirstRow(schema, Flatten(res)))
  }

  function FirstRow<R, T>(schema: Schema<R, T>, rows: seq<R>): (r: Result<T, DbError>)
    ensures |rows| == 0 <==> r == Failure(NotFound)
  {
    if |rows| == 0 then Failure(NotFound)
    else if !schema.hasUuidField then Failure(SetUuidFailed)
    else
      match schema.decode(rows[0])
      case Failure(e) => Failure(DecodeFailed(e))
      case Success(v) => Success(v)
  }

  /** Rows of later results and later rows never influence Get: only the first row counts. */
  lemma GetFirstRow<R, T>(schema: Schema<R, T>, cache: Option<Client>, dial: Result<Client, string>,
                          transact: (Client, seq<Operation>) -> Result<seq<seq<R>>, string>,
                          empties: nat, first: seq<R>, later: seq<seq<R>>)
    requires schema.hasUuidField && |first| > 0
    requires Connect(cache, dial).1.Success?
    requires transact(Connect(cache, dial).1.value, [Select(schema.table, None)]) ==
             Success(seq(empties, _ => []) + [first] + later)
    ensures Get(schema, cache, dial, transact).1 ==
            (match schema.decode(first[0]) case Failure(e) => Failure(DecodeFailed(e)) case Success(v) => Success(v))
  {
    FlattenEmpties(empties, first, later);
  }

  lemma {:induction false} FlattenEmpties<R>(empties: nat, first: seq<R>, later: seq<seq<R>>)
    requires |first| > 0
    ensures var rows := Flatten(seq(empties, _ => []) + [first] + later);
            |rows| > 0 && rows[0] == first[0]
  {
    var res := seq(empties, _ => []) + [first] + later;
    if empties == 0 {
      assert res[0] == first;
    } else {
      FlattenEmpties(empties - 1, first, later);
      assert res[1..] == seq(empties - 1, _ => []) + [first] + later;
      assert res[0] == [];
    }
  }

  // ---------------------------------------------------------------------
  // List

  /**
   * Decode rows one by one onto `acc`; the first row that fails stops the
   * loop, keeping what was appended before it.
   */
  function AppendRows<R, T>(schema: Schema<R, T>, acc: seq<T>, rows: seq<R>): (r: (seq<T>, Option<DbError>))
    ensures |acc| <= |r.0| <= |acc| + |rows| && r.0[..|acc|] == acc
    ensures r.1.None? ==> |r.0| == |acc| + |rows|
    decreases |rows|
  {
    if |rows| == 0 then (acc, None)
    else
      match schema.decode(rows[0])
      case Failure(e) => (acc, Some(DecodeFailed(e)))
      case Success(v) =>
        if !schema.hasUuidField then (acc, Some(SetUuidFailed))
        else
          var r := AppendRows(schema, acc + [v], rows[1..]);
          assert r.0[..|acc|] == (acc + [v])[..|acc|] by {
            assert r.0[..|acc|] == r.0[..|acc| + 1][..|acc|];
          }
          r
  }

  /** The values appended are the decodings of a prefix of the rows, in row order. */
  lemma {:induction false} AppendRowsDecodes<R, T>(schema: Schema<R, T>, acc: seq<T>, rows: seq<R>, k: nat)
    requires |acc| <= k < |AppendRows(schema, acc, rows).0|
    ensures k - |acc| < |rows|
    ensures schema.decode(rows[k - |acc|]) == Success(AppendRows(schema, acc, rows).0[k])
    decreases |rows|
  {
    var v := schema.decode(rows[0]).value;
    var r := AppendRows(schema, acc + [v], rows[1..]);
    if k == |acc| {
      assert r.0[..|acc| + 1] == acc + [v];
      assert r.0[k] == (acc + [v])[k];
    } else {
      AppendRowsDecodes(schema, acc + [v], rows[1..], k);
    }
  }

  /** A row that fails to decode ends the list right before it. */
  lemma {:induction false} AppendRowsStops<R, T>(schema: Schema<R, T>, acc: seq<T>, rows: seq<R>)
    requires AppendRows(schema, acc, rows).1.Some?
    ensures var n := |AppendRows(schema, acc, rows).0| - |acc|;
            n < |rows| &&
            (schema.decode(rows[n]).Failure? || !schema.hasUuidField)
    decreases |rows|
  {
    match schema.decode(rows[0])
    case Failure(_) =>
    case Success(v) =>
      if schema.hasUuidField {
        AppendRowsStops(schema, acc + [v], rows[1..]);
      }
  }

  /**
   * List: build the operations, transact them, and append one decoded value
   * per returned row to the caller's list, which is never cleared. An error
   * before the transaction leaves the list as it was; a row that fails to
   * decode leaves the values appended before it.
   */
  function List<R, T>(schema: Schema<R, T>, cache: Option<Client>, dial: Result<Client, string>,
                      transact: (Client, seq<Operation>) -> Result<seq<seq<R>>, string>,
                      results: seq<T>, colInfo: seq<string>): (r: (Option<Client>, seq<T>, Option<DbError>))
    ensures r.0 == Connect(cache, dial).0
    ensures |results| <= |r.1| && r.1[..|results|] == results
  {
    var (cache', conn) := Connect(cache, dial);
    match conn
    case Failure(e) => (cache', results, Some(e))
    case Success(db) =>
      match GetOperations(schema, colInfo)
      case Failure(e) => (cache', results, Some(e))
      case Success(ops) =>
        match transact(db, ops)
        case Failure(e) => (cache', results, Some(TransactFailed(e)))
        case Success(res) =>
          var (out, err) := AppendRows(schema, results, Flatten(res));
          (cache', out, err)
  }

  /** On success, List appends exactly the decodings of all returned rows, in order. */
  lemma ListAppendsAll<R, T>(schema: Schema<R, T>, cache: Option<Client>, dial: Result<Client, string>,
                             transact: (Client, seq<Operation>) -> Result<seq<seq<R>>, string>,
                             results: seq<T>, colInfo: seq<string>, rows: seq<seq<R>>)
    requires Connect(cache, dial).1.Success?
    requires GetOperations(schema, colInfo).Success?
    requires transact(Connect(cache, dial).1.value, GetOperations(schema, colInfo).value) == Success(rows)
    requires List(schema, cache, dial, transact, results, colInfo).2.None?
    ensures var out := List(schema, cache, dial, transact, results, colInfo).1;
            |out| == |results| + |Flatten(rows)| &&
            forall k :: 0 <= k < |Flatten(rows)| ==> schema.decode(Flatten(rows)[k]) == Success(out[|results| + k])
  {
    var out := List(schema, cache, dial, transact, results, colInfo).1;
    forall k | 0 <= k < |Flatten(rows)|
      ensures schema.decode(Flatten(rows)[k]) == Success(out[|results| + k])
    {
      AppendRowsDecodes(schema, results, Flatten(rows), |results| + k);
    }
  }
}
