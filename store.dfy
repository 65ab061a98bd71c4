/**
 * The shape of what the hosted database client hands back, and of the query
 * plans the handlers build. Query execution itself is not modelled: a handler
 * is given the store as an oracle from the plan it built to the reply.
 */
module Store {
  import opened Wrappers
  import opened Listing

  /** An error object returned by the client: a message and a code. */
  datatype StoreError = StoreError(message: string, code: string)

  /** The code `.single()` reports when the filter matched no row (or several). */
  const NoRowsCode := "PGRST116"

  /** `{ data, count, error }` as the client resolves an awaited query. */
  datatype Reply<T> = Reply(data: Option<T>, count: Option<int>, error: Option<StoreError>)

  /** An awaited call into a collaborator: it either resolves or throws an error with a message. */
  datatype Call<T> = Returned(value: T) | Threw(message: string)

  /** One `.order(column, { ascending })` clause. */
  datatype Order = Order(column: string, ascending: bool)

  /**
   * A query plan: the filters conjoined onto the builder, its ordering, the
   * `.range(from, to)` window, the `.limit(n)` cap, whether an exact count is
   * requested and whether `.single()` was asked for.
   */
  datatype Request<F> = Request(
    filters: seq<F>,
    order: seq<Order>,
    range: Option<Window>,
    cap: Option<nat>,
    countExact: bool,
    single: bool)

  /**
   * The message a read handler's catch block reports for an awaited query:
   * the thrown error's, or the returned error's (which the handler rethrows).
   */
  function FailureOf<T>(call: Call<Reply<T>>): (m: Option<string>)
    ensures call.Threw? ==> m == Some(call.message)
    ensures call.Returned? && call.value.error.Some? ==> m == Some(call.value.error.value.message)
    ensures call.Returned? && call.value.error.None? ==> m.None?
  {
    match call
    case Threw(message) => Some(message)
    case Returned(reply) => if reply.error.Some? then Some(reply.error.value.message) else None
  }

  /** A query parameter is truthy when it is present and not the empty string. */
  predicate Truthy(query: map<string, string>, name: string)
  {
    name in query && query[name] != ""
  }
}
