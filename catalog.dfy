/**
 * The `files` table (server.js, sqlite) and the mongoose model `File`
 * (api/index.js, stored in the collection `files`), both reduced to what the handlers rely on:
 * rows keyed by a unique token, an insert that the engine refuses for a
 * token already present, and lookup by token.
 */
module Catalog {

  class Table<Row> {
    /** The rows of the table, keyed by their `token` column. */
    var rows: map<string, Row>

    constructor ()
      ensures rows == map[]
    {
      rows := map[];
    }

    /** Inserts `row` under `token`. It fails, changing nothing, when the
        token is already present (the unique constraint) or when the engine
        reports a fault of its own (`engineFault`); otherwise it adds exactly
        that one row. */
    method Insert(token: string, row: Row, engineFault: bool) returns (ok: bool)
      modifies this
      ensures ok <==> !engineFault && token !in old(rows)
      ensures ok ==> rows == old(rows)[token := row] && |rows| == |old(rows)| + 1
      ensures !ok ==> rows == old(rows)
    {
      ok := !engineFault && token !in rows;
      if ok {
        rows := rows[token := row];
      }
    }
  }
}
