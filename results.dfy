/** Option and Result, shared by the whole model. */
module Results {

  datatype Option<+T> = None | Some(value: T)

  /** The ways an invocation of the chaincode aborts. */
  datatype Error =
    | RoleDenied(expected: string)  // the caller's "role" attribute is not `expected`
    | NotFound(key: string)         // no record is stored under `key`
    | NotAllowed(caller: string)    // `caller` is not on the target's access list
    | TypeError                     // a field or segment that is not there was dereferenced

  datatype Result<+T> = Success(value: T) | Failure(error: Error)
}
