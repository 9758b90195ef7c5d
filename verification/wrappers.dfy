/** Optional values, results, and the error kinds the handlers and the store report. */
module Wrappers {

  datatype Option<+T> = None | Some(value: T)

  /** Failures of the store layer (the DBError of the data-access layer). */
  datatype DbError =
    | RowNotFound   // a fetch of one row matched nothing
    | DuplicateKey  // an insert reused a primary key

  /** Every way a handler or a query stops; each `reject!` message is one kind. */
  datatype Error =
    | Validation                       // the validator refused the body
    | UserExists                       // register: the username is taken
    | DomainRequired                   // no `from` query parameter
    | DomainNotFound(domainId: string) // `from` names no domain
    | NoDefaultRole(domainId: string)  // the domain has no default role
    | UserNotFound                     // login: no account with that username
    | WrongPassword                    // login: the password does not match
    | UserDisabled                     // login: the account is disabled
    | AdminOnly                        // the caller's token is not an admin's
    | Db(cause: DbError)               // propagated with `?`

  datatype Result<+T> = Ok(value: T) | Err(error: Error)

  /** A write that either happened or failed. */
  datatype Outcome = Pass | Fail(error: Error)
}
