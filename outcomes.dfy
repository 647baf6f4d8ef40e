/** Typed outcomes of the controller operations: the HTTP error responses of the
    controllers (400 duplicate name, 404 not found, 400 timeTo before timeFrom) become
    values of `Error`, and a response body becomes the `Ok` payload. */
module Outcomes {

  datatype Error = DuplicateName | NotFound | InvalidInterval

  datatype Result<T> = Ok(value: T) | Err(error: Error)

  datatype Option<T> = None | Some(value: T)
}
