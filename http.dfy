/**
 * What the HTTP handlers see of their surroundings: the settled value of a
 * database query (its rows, or a thrown error caught by the handler's
 * `try`), and the status line and error text of the JSON reply they send.
 */
module Http {
  import opened Wrappers

  /** A `pool.query` / `db.query` promise, once settled: its value, or a rejection. */
  datatype Answer<T> = Ok(value: T) | Thrown

  /**
   * `res.status(s).json(...)`: the status code, and the text of the
   * `error` field for error replies (`None` for a reply carrying data).
   */
  datatype Reply = Reply(status: nat, error: Option<string>)

  /** A reply carrying data rather than an error. */
  function Data(status: nat): Reply {
    Reply(status, None)
  }

  /** An error reply `{ error: msg }`. */
  function Error(status: nat, msg: string): Reply {
    Reply(status, Some(msg))
  }
}
