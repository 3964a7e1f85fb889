/** The exceptions the jobs raise or catch, as one datatype. */
module Errors {
  import opened Text

  datatype Error =
    | OperationalError                  // psycopg2.OperationalError
    | InterfaceError                    // psycopg2.InterfaceError
    | PoolError                         // any other psycopg2.Error from the pool
    | SqlError(reason: string)          // a statement the server rejects
    | DatabaseError(message: string)    // app.core.exceptions.DatabaseError
    | RuntimeError(message: string)
    | KeyError(key: string)
    | ValueError(message: string)
    | InvalidOperation                  // decimal.InvalidOperation, an ArithmeticError
    | ValidationError(field: string)    // pydantic.ValidationError
    | TypeError(message: string)
    | BlockNotFound                     // web3.exceptions.BlockNotFound
    | RpcError(message: string)         // any other failure of a node call
    | Exception(message: string)        // a bare `raise Exception(...)`
    | AttributeError(message: string)
    | UnboundLocalError(name: string)   // a local variable read before it was assigned
    | IndexError                        // a list index out of range

  /** A node error whose text says the node is rate limiting. */
  predicate RateLimited(e: Error)
  {
    e.RpcError? && Contains(e.message, "Too Many Requests")
  }
}
