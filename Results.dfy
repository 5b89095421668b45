/** Outcomes shared by every layer: an optional value, a value-or-error result,
    and the failures the account code raises (HTTP exceptions, database
    commit failures and Python attribute errors). */
module Results {

  datatype Option<T> = None | Some(value: T)

  datatype Result<T, E> = Ok(value: T) | Err(error: E)

  /** What an operation can end in instead of a value. */
  datatype Failure =
    /** A raised HTTPException: status code, detail text and the optional
        WWW-Authenticate header. */
    | HttpError(status: int, detail: string, authenticate: Option<string>)
    /** The commit was refused by a column length or unique constraint. */
    | IntegrityError
    /** Attribute access on an object that lacks the attribute. */
    | AttributeError(attribute: string)
    /** The confirmation-token decoder refused the token. */
    | TokenRejected
}
