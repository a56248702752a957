/** Failure-carrying results shared by the whole model. Each thrown `Error` of the
    TypeScript code becomes an `Err` value carrying the reason it was thrown. */
module Results {

  datatype Option<+T> = None | Some(value: T)

  /** Why an operation failed; one constructor per `throw` of the modelled code. */
  datatype Error =
    | CatalogNotFound(name: string)    // "Cannot find the catalog with name ..."
    | TaxonomyNotFound(key: string)    // "Cannot find taxonomy with key ..."
    | TaxonNotFound(key: string)       // "Cannot find taxon with key ..."
    | TaxonBySlugNotFound              // "Cannot find Taxon!"
    | EmptyInput                       // `combine` called with an empty array

  datatype Result<+T> = Ok(value: T) | Err(error: Error) {

    predicate IsFailure() {
      Err?
    }

    function PropagateFailure<U>(): Result<U>
      requires Err?
    {
      Err(error)
    }

    function Extract(): T
      requires Ok?
    {
      value
    }
  }
}
