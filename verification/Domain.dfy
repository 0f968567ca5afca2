/** What the worker's services share (worker/src/domain). */
module Domain {

  datatype Result<+T, +E> = Ok(value: T) | Err(error: E)

  datatype Role = Admin | Member
}
