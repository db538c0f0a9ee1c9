/** Result and option types shared by every component: the sources' exceptions and
    error returns become `Err` values. */
module Outcomes {

  datatype Option<+T> = None | Some(value: T)

  datatype Result<+T, +E> = Ok(value: T) | Err(error: E)
}
