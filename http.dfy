/** The HTTP responses the handlers produce: a status code and a JSON body. */
module Http {
  import opened Wrappers
  import Js

  datatype Response<B> = Response(status: nat, body: B)

  /** The JSON bodies of the read handlers over rows of type R. */
  datatype ListBody<R> =
    | Rows(rows: Option<seq<R>>)
    | One(row: Option<R>)
    | Page(data: Option<seq<R>>, count: Option<int>, page: Js.Number, limit: Js.Number)
    | Error(error: string)
}
