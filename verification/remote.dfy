/** Outcomes of the calls the storefront makes to code it cannot see:
    the commerce API answers either with data or with an error (a rejected
    promise). Every remote call is modelled as one of these, passed in as a
    parameter, so the local state transitions stay pure functions. */
module Remote {

  /** The answer of one HTTP request: `Ok(data)` when the promise resolves
      with `response.data`, `Failed` when it rejects. */
  datatype Response<+T> = Ok(data: T) | Failed

  /** A value that may be absent (`null`/`undefined`, or `NaN` for parseInt). */
  datatype Option<+T> = None | Some(value: T)
}
